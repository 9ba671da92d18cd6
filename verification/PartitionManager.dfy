/** The imperative side of the image-flash transaction: prepare, roll back, and the batch around them. */
module PartitionManagers {
  import opened Wrappers
  import opened SuperTable
  import opened SuperLayout
  import opened RomLayout
  import opened FlashTransaction
  import opened FlashRequest
  import opened BatchOrder
  import FlashMounts

  datatype Outcome = NothingToUndo | Unidentified | Restored | Incomplete

  method SetToSeq(s: set<string>) returns (q: seq<string>)
    ensures forall n :: n in q <==> n in s
  {
    q := [];
    var left := s;
    while left != {}
      invariant left <= s
      invariant forall n :: n in q <==> n in s && n !in left
    {
      var n :| n in left;
      q := q + [n];
      left := left - {n};
    }
  }

  ghost function SeqSet(s: seq<string>): set<string> {
    set i | 0 <= i < |s| :: s[i]
  }

  /** `base` plus a device for every name in `names`, made from table `t`. */
  ghost function MapAll(base: Mappings, t: Table, names: set<string>): Mappings
    requires names <= t.parts.Keys
  {
    map n | n in base.Keys + names :: if n in base then base[n] else t.parts[n].extents
  }

  lemma {:induction false} MapAllNext(base: Mappings, t: Table, names: set<string>, n: string)
    requires names <= t.parts.Keys && n in t.parts
    ensures MapAll(base, t, names + {n}) ==
      if n in MapAll(base, t, names) then MapAll(base, t, names) else MapAll(base, t, names)[n := t.parts[n].extents]
  {
  }

  class PartitionManager {
    const geometry: Geometry
    const suffix: string
    var disk: Table
    var mapped: Mappings
    var track: Trackers
    var batchActive: bool
    const mounts: FlashMounts.MountNamespace
    /** The events of the current or last batch, and the phase they lead to. */
    ghost var trace: seq<Event>
    ghost var phase: Phase
    /** The devices preparation has destroyed since the batch began. */
    ghost var released: set<string>

    constructor (geo: Geometry, suffix: string, disk: Table, mapped: Mappings, mounts: FlashMounts.MountNamespace)
      ensures this.geometry == geo && this.suffix == suffix && this.disk == disk && this.mapped == mapped
      ensures this.mounts == mounts && track == NO_TRACKERS && !batchActive && released == {} && Logged()
    {
      this.geometry, this.suffix, this.disk, this.mapped, this.mounts := geo, suffix, disk, mapped, mounts;
      track, batchActive, trace, phase, released := NO_TRACKERS, false, [], Idle, {};
    }

    ghost predicate Logged()
      reads this`trace, this`phase
    {
      phase == Fold(Idle, trace)
    }

    ghost method Log(e: Event)
      requires Logged()
      modifies this`trace, this`phase
      ensures Logged() && trace == old(trace) + [e] && phase == Next(old(phase), e)
    {
      FoldNext(trace, e);
      trace, phase := trace + [e], Next(phase, e);
    }

    // ----- calls that may fail -----

    /** `works` says that the call cannot fail; the same holds for the calls below. */
    method DestroyLogicalPartition(name: string, works: bool) returns (ok: bool)
      modifies this`mapped
      ensures works ==> ok
      ensures mapped == if ok then old(mapped) - {name} else old(mapped)
    {
      ok := *;
      ok := ok || works;
      if ok {
        mapped := mapped - {name};
      }
    }

    /** The same call during preparation, which leaves a note of what was destroyed. */
    method ReleaseDevice(name: string, works: bool) returns (ok: bool)
      modifies this`mapped, this`released
      ensures disk == old(disk) && track == old(track)
      ensures works ==> ok
      ensures mapped == if ok then old(mapped) - {name} else old(mapped)
      ensures released == if ok then old(released) + {name} else old(released)
    {
      ok := DestroyLogicalPartition(name, works);
      if ok {
        released := released + {name};
      }
    }

    /** Mapping reads the table on disk; an existing device is left as it is. */
    method MapLogicalPartition(name: string, works: bool) returns (ok: bool)
      modifies this`mapped
      ensures ok ==> name in disk.parts
      ensures works && name in disk.parts ==> ok
      ensures mapped ==
        if ok && name !in old(mapped) then old(mapped)[name := disk.parts[name].extents] else old(mapped)
    {
      ok := *;
      ok := (ok || works) && name in disk.parts;
      if ok && name !in mapped {
        mapped := mapped[name := disk.parts[name].extents];
      }
    }

    /** A failed update may leave any table behind. */
    method UpdatePartitionTable(t: Table, works: bool, ghost event: Event) returns (ok: bool)
      requires Logged()
      modifies this`disk, this`trace, this`phase
      ensures works ==> ok
      ensures ok ==> disk == t
      ensures Logged() && phase == Next(old(phase), event)
    {
      ok := *;
      ok := ok || works;
      disk := *;
      if ok {
        disk := t;
      }
      Log(event);
    }

    // ----- rollback -----

    method DestroyMapped(names: seq<string>, works: bool) returns (released: bool)
      modifies this`mapped
      ensures works ==> released
      ensures released ==> mapped == old(mapped) - SeqSet(names)
    {
      released := true;
      for i := 0 to |names|
        invariant works ==> released
        invariant released ==> mapped == old(mapped) - SeqSet(names[..i])
      {
        if names[i] in mapped {
          var ok := DestroyLogicalPartition(names[i], works);
          if !ok { released := false; }
        }
        assert SeqSet(names[..i + 1]) == SeqSet(names[..i]) + {names[i]};
      }
      assert names[..|names|] == names;
    }

    method DestroyAll(names: seq<string>, works: bool) returns (released: bool)
      modifies this`mapped
      ensures works ==> released
      ensures released ==> mapped == old(mapped) - SeqSet(names)
    {
      released := true;
      for i := 0 to |names|
        invariant works ==> released
        invariant released ==> mapped == old(mapped) - SeqSet(names[..i])
      {
        var ok := DestroyLogicalPartition(names[i], works);
        if !ok { released := false; }
        assert SeqSet(names[..i + 1]) == SeqSet(names[..i]) + {names[i]};
      }
      assert names[..|names|] == names;
    }

    /** Maps the names that `existing` holds; true when every call succeeded. */
    method MapNames(names: seq<string>, existing: Table, works: bool) returns (ok: bool)
      modifies this`mapped
      ensures works && disk == existing ==> ok
      ensures ok && disk == existing ==>
        mapped == MapAll(old(mapped), existing, set n | n in names && n in existing.parts)
    {
      ok := true;
      assert MapAll(mapped, existing, {}) == mapped;
      for i := 0 to |names|
        invariant works && disk == existing ==> ok
        invariant ok && disk == existing ==>
          mapped == MapAll(old(mapped), existing, set n | n in names[..i] && n in existing.parts)
      {
        ghost var done := set n | n in names[..i] && n in existing.parts;
        assert names[..i + 1] == names[..i] + [names[i]];
        if names[i] in existing.parts {
          assert (set n | n in names[..i + 1] && n in existing.parts) == done + {names[i]};
          MapAllNext(old(mapped), existing, done, names[i]);
          var one := MapLogicalPartition(names[i], works);
          if !one { ok := false; }
        } else {
          assert (set n | n in names[..i + 1] && n in existing.parts) == done;
        }
      }
      assert names[..|names|] == names;
    }

    method EntryNames(t: Table) returns (ok: bool, names: seq<string>)
      ensures ok <==> forall n :: n in ResizedNames(t, suffix, track.resized) ==> n in t.parts
      ensures ok ==> SeqSet(names) == ResizedNames(t, suffix, track.resized)
      ensures ok ==> forall n :: n in names <==> n in ResizedNames(t, suffix, track.resized)
    {
      names := [];
      for i := 0 to |track.resized|
        invariant |names| == i && forall k :: 0 <= k < i ==>
          names[k] == EntryName(t, suffix, track.resized[k]) && names[k] in t.parts
      {
        var name := EntryName(t, suffix, track.resized[i]);
        if name !in t.parts {
          assert name in ResizedNames(t, suffix, track.resized);
          return false, [];
        }
        names := names + [name];
      }
      ok := true;
    }

    method Rollback(checkpoint: Option<Table>, works: bool, ghost m0: Mappings) returns (outcome: Outcome)
      requires checkpoint.Some? ==> Tracked(checkpoint.value, m0, suffix, disk, mapped, track, released)
      requires Logged()
      modifies this`disk, this`mapped, this`trace, this`phase
      ensures works ==> outcome != Incomplete
      ensures outcome != Unidentified
      ensures outcome == NothingToUndo <==>
        (checkpoint.None? ||
         (track.resized == [] && !track.metadataChanged && track.unmappedCows == [] && track.layoutMappings == []))
      ensures outcome == NothingToUndo ==> disk == old(disk) && mapped == old(mapped)
      ensures outcome == Restored ==>
        && Remapped(checkpoint.value, suffix, track) <= checkpoint.value.parts.Keys
        && disk == checkpoint.value && mapped == AfterRollback(checkpoint.value, suffix, old(mapped), track)
      ensures Logged() && (phase == old(phase) || (phase == Next(old(phase), CheckpointWritten) && checkpoint.Some?))
    {
      if checkpoint.None? ||
         (track.resized == [] && !track.metadataChanged && track.unmappedCows == [] && track.layoutMappings == []) {
        return NothingToUndo;
      }
      var original := checkpoint.value;
      var known, names := EntryNames(original);
      if !known {
        return Unidentified;
      }
      var released := DestroyMapped(track.layoutMappings, works);
      var also := DestroyAll(names, works);
      var restored := false;
      if released && also {
        restored := UpdatePartitionTable(original, works, CheckpointWritten);
      }
      ghost var base := mapped;
      var one := MapNames(names, original, works);
      var two := MapNames(track.originalMappings, original, works);
      var three := MapNames(track.unmappedCows, original, works);
      if restored && one && two && three {
        RollbackMappings(original, suffix, old(mapped), track, base, names);
        return Restored;
      }
      outcome := Incomplete;
    }

    // ----- preparation: images and plan -----

    /** Names and sizes of the selected logical images; refuses an invalid or missing target. */
    method CollectImages(targets: seq<Target>, bytes: seq<nat>, hasLayout: bool, works: bool)
      returns (ok: bool, images: seq<LogicalImageSize>)
      requires |targets| == |bytes|
      ensures ok ==> TargetsOk(disk, suffix, targets, bytes, hasLayout)
      ensures works && TargetsOk(disk, suffix, targets, bytes, hasLayout) ==> ok
      ensures ok ==> images == ImagesOf(disk, suffix, targets, bytes)
      ensures ok ==> forall i :: 0 <= i < |images| ==> images[i].name in disk.parts || hasLayout
    {
      images := [];
      for i := 0 to |targets|
        invariant images == ImagesOf(disk, suffix, targets[..i], bytes[..i])
        invariant forall k :: 0 <= k < |images| ==> images[k].name in disk.parts || hasLayout
        invariant forall k :: 0 <= k < i ==> TargetOk(disk, suffix, targets[k], bytes[k], hasLayout)
      {
        assert targets[..i + 1][..i] == targets[..i] && bytes[..i + 1][..i] == bytes[..i];
        var accepted := CheckTarget(targets[i], bytes[i], hasLayout, works);
        if !accepted {
          return false, [];
        }
        images := images + ImageOf(disk, suffix, targets[i], bytes[i]);
      }
      assert targets[..|targets|] == targets && bytes[..|bytes|] == bytes;
      ok := true;
    }

    method CheckTarget(target: Target, bytes: nat, hasLayout: bool, works: bool) returns (ok: bool)
      ensures ok ==> TargetOk(disk, suffix, target, bytes, hasLayout)
      ensures works && TargetOk(disk, suffix, target, bytes, hasLayout) ==> ok
    {
      var readable: bool := *;
      readable := readable || works;
      match target {
        case Block(_) =>
          ok := true;
        case Logical(bare) =>
          if !ValidBare(bare) || bytes == 0 || bytes % 512 != 0 || !readable { return false; }
          ok := hasLayout || bare + suffix in disk.parts;
        case Listed(bare, inSuper) =>
          if bytes == 0 || bytes > INT64_MAX || (inSuper && bytes % 512 != 0) || !readable { return false; }
          ok := !inSuper || EntryName(disk, suffix, bare) in disk.parts;
      }
    }

    method ChangedNames(parts: map<string, Partition>, images: seq<LogicalImageSize>) returns (changed: seq<string>)
      requires forall i :: 0 <= i < |images| ==> images[i].name in parts
      ensures changed == Changed(geometry, parts, images)
    {
      changed := [];
      for i := 0 to |images|
        invariant changed == Changed(geometry, parts, images[..i])
      {
        assert images[..i + 1][..i] == images[..i];
        if SizeOf(geometry, parts[images[i].name]) != images[i].bytes {
          changed := changed + [images[i].name];
        }
      }
      assert images[..|images|] == images;
    }

    /** "/logical/" targets about to change size are listed like layout partitions. */
    method ListChangedLogicals(targets: seq<Target>, changed: seq<string>)
      requires track.layoutMappings == []
      modifies this`track
      ensures track == old(track).(layoutMappings := track.layoutMappings)
      ensures forall n :: n in track.layoutMappings <==> ChangeLists(suffix, targets, changed, n)
    {
      for i := 0 to |targets|
        invariant track == old(track).(layoutMappings := track.layoutMappings)
        invariant forall n :: n in track.layoutMappings ==> ChangeLists(suffix, targets, changed, n)
        invariant forall k :: 0 <= k < i && targets[k].Logical? && targets[k].bare + suffix in changed ==>
          targets[k].bare + suffix in track.layoutMappings
      {
        if targets[i].Logical? {
          var name := targets[i].bare + suffix;
          if name in changed {
            assert ChangeLists(suffix, targets, changed, name);
            track := track.(layoutMappings := track.layoutMappings + [name]);
          }
        }
      }
    }

    method StaleCows() returns (cows: seq<string>)
      ensures AreStaleCows(disk, cows)
    {
      cows := SetToSeq(set n | n in disk.parts && disk.parts[n].group == "cow" && ProperSuffix(n, "-cow"));
    }

    /** Plans the package layout and lists exactly the mappings it may affect. */
    method PlanLayout(b: MetadataBuilder, layout: RomImageLayout, images: seq<LogicalImageSize>) returns (ok: bool)
      requires b.Valid() && b.table == disk
      modifies b`table, this`track
      ensures b.Valid()
      ensures ok <==> RomRequestOk(layout, suffix, images)
      ensures ok ==> RomPlanned(disk, b.table, layout, suffix)
      ensures track == if ok then old(track).(layoutMappings := track.layoutMappings) else old(track)
      ensures ok ==> forall n :: n in track.layoutMappings <==> LayoutLists(disk, suffix, images, n)
      ensures ok ==> SameOutside(disk, b.table, track.layoutMappings) && AllListed(images, track.layoutMappings)
      ensures ok ==> forall i :: 0 <= i < |images| ==> images[i].name in b.table.parts
    {
      var affected := SetToSeq((set n | n in disk.parts && ProperSuffix(n, suffix)) + Selected(images));
      var planningError;
      ok, planningError := PlanRomImageLayout(b, layout, suffix, images);
      if ok {
        track := track.(layoutMappings := affected);
        RomKeepsOthers(disk, b.table, layout, suffix, images, affected);
      }
    }

    /** Sizes the images on the copy and exports it. */
    method PlanImages(b: MetadataBuilder, images: seq<LogicalImageSize>, changed: seq<string>, cows: seq<string>)
      returns (ok: bool, updated: Table)
      requires b.Valid() && b.geometry == geometry && forall i :: 0 <= i < |images| ==> images[i].name in b.table.parts
      requires changed == Changed(geometry, b.table.parts, images)
      modifies b`table
      ensures ok <==> Accepts(geometry, old(b.table), images, cows)
      ensures ok ==> geometry.blockBytes > 0 && Planned(old(b.table), updated, Wanted(geometry, images), cows)
      ensures ok ==> HoldsImages(geometry, updated, images) && KeepsOthers(old(b.table), updated, changed, [])
      ensures ok ==> CowsGone(updated, cows)
    {
      updated := b.table;
      var planningError;
      ok, planningError := PlanImageFlashLayout(b, images, cows);
      if !ok { return; }
      ExportableIff(geometry, old(b.table), b.table, images, cows);
      var exported := b.Export();
      if exported.None? {
        ok := false;
        return;
      }
      updated := exported.value;
      PlanHoldsImages(geometry, old(b.table), updated, images, cows);
      PlanKeepsOthers(geometry, old(b.table), updated, images, cows, changed);
    }

    /** The same, in terms of the table on disk. */
    method PlanUpdate(b: MetadataBuilder, images: seq<LogicalImageSize>, changed: seq<string>, cows: seq<string>,
                      ghost layout: Option<RomImageLayout>)
      returns (ok: bool, updated: Table)
      requires b.Valid() && b.geometry == geometry && forall i :: 0 <= i < |images| ==> images[i].name in b.table.parts
      requires changed == Changed(geometry, b.table.parts, images)
      requires AfterLayout(disk, b.table, layout, suffix, images) && AreStaleCows(disk, cows)
      requires SameOutside(disk, b.table, track.layoutMappings)
      modifies b`table
      ensures ok <==> SuperAccepts(geometry, disk, suffix, images, layout)
      ensures ok ==> CommittedTable(geometry, disk, updated, suffix, images, layout)
      ensures ok ==> HoldsImages(geometry, updated, images) && CowsGone(updated, cows)
      ensures ok ==> KeepsOthers(disk, updated, changed, track.layoutMappings)
    {
      ghost var t1 := b.table;
      SuperAcceptsIff(geometry, disk, suffix, images, layout, t1, cows);
      ok, updated := PlanImages(b, images, changed, cows);
      if ok {
        assert PlannedFrom(geometry, disk, updated, suffix, images, layout, t1, cows);
        KeepsOthersSince(disk, t1, updated, changed, track.layoutMappings);
      }
    }

    /** Plans the layout, if there is one, on the copy, and lists the mappings of the request. */
    method PlanAndList(b: MetadataBuilder, targets: seq<Target>, images: seq<LogicalImageSize>,
                       layout: Option<RomImageLayout>)
      returns (ok: bool, changed: seq<string>)
      requires b.Valid() && b.geometry == geometry && b.table == disk && WellFormed(geometry, disk)
      requires layout.None? ==> forall i :: 0 <= i < |images| ==> images[i].name in disk.parts
      requires track == NO_TRACKERS
      modifies this`track, b`table
      ensures b.Valid()
      ensures track == NO_TRACKERS.(layoutMappings := track.layoutMappings)
      ensures ListingIs(track.layoutMappings, geometry, disk, suffix, targets, images, layout)
      ensures ok <==> layout.None? || RomRequestOk(layout.value, suffix, images)
      ensures ok ==> AfterLayout(disk, b.table, layout, suffix, images)
      ensures ok ==> SameOutside(disk, b.table, track.layoutMappings)
      ensures ok ==> forall i :: 0 <= i < |images| ==> images[i].name in b.table.parts
      ensures ok ==> changed == Changed(geometry, b.table.parts, images)
      ensures ok ==> forall n :: n in changed ==> Named(images, n)
      ensures ok && layout.Some? ==> AllListed(images, track.layoutMappings)
      ensures ok && layout.None? ==> changed == Changed(geometry, disk.parts, images)
    {
      ok, changed := true, [];
      if layout.Some? {
        ok := PlanLayout(b, layout.value, images);
        if !ok { return; }
      }
      changed := ChangedNames(b.table.parts, images);
      OnlyNamedChange(geometry, b.table, images, changed);
      if layout.None? {
        ListChangedLogicals(targets, changed);
      }
    }

    /** Plans the new table on a copy; only the list of layout mappings is touched, before the plan is known to fit. */
    method PlanTables(targets: seq<Target>, images: seq<LogicalImageSize>, layout: Option<RomImageLayout>, works: bool)
      returns (ok: bool, updated: Table, changed: seq<string>, cows: seq<string>)
      requires WellFormed(geometry, disk)
      requires layout.None? ==> forall i :: 0 <= i < |images| ==> images[i].name in disk.parts
      requires track == NO_TRACKERS
      modifies this`track
      ensures track == NO_TRACKERS.(layoutMappings := track.layoutMappings)
      ensures track.layoutMappings == [] ||
        ListingIs(track.layoutMappings, geometry, disk, suffix, targets, images, layout)
      ensures works || ok ==> ListingIs(track.layoutMappings, geometry, disk, suffix, targets, images, layout)
      ensures AreStaleCows(disk, cows)
      ensures works && SuperAccepts(geometry, disk, suffix, images, layout) ==> ok
      ensures ok ==> CommittedTable(geometry, disk, updated, suffix, images, layout)
      ensures ok ==> HoldsImages(geometry, updated, images)
      ensures ok ==> KeepsOthers(disk, updated, changed, track.layoutMappings) && CowsGone(updated, cows)
      ensures ok ==> forall n :: n in changed ==> Named(images, n)
      ensures ok && layout.Some? ==> AllListed(images, track.layoutMappings)
      ensures ok && layout.None? ==> changed == Changed(geometry, disk.parts, images)
    {
      ok, updated, changed := false, disk, [];
      cows := StaleCows();
      var idle: bool := *;
      if !idle && !works { return; }
      var b := new MetadataBuilder(geometry, disk);
      ok, changed := PlanAndList(b, targets, images, layout);
      if !ok { return; }
      ok, updated := PlanUpdate(b, images, changed, cows, layout);
    }

    // ----- preparation: releasing devices -----

    /** Remembers every fstab partition whose entry is about to change size. */
    method RememberResized(targets: seq<Target>, changed: seq<string>, ghost m0: Mappings)
      requires mapped == m0 && track == NO_TRACKERS.(layoutMappings := track.layoutMappings) && released == {}
      requires forall i :: 0 <= i < |targets| && targets[i].Listed? && targets[i].inSuper ==>
        EntryName(disk, suffix, targets[i].bare) in disk.parts
      modifies this`track
      ensures Tracked(disk, m0, suffix, disk, mapped, track, released)
      ensures track == NO_TRACKERS.(layoutMappings := old(track).layoutMappings, resized := track.resized)
      ensures forall i :: 0 <= i < |targets| && targets[i].Listed? && targets[i].inSuper ==>
        EntryName(disk, suffix, targets[i].bare) in changed ==>
        EntryName(disk, suffix, targets[i].bare) in ResizedNames(disk, suffix, track.resized)
    {
      for i := 0 to |targets|
        invariant track == NO_TRACKERS.(layoutMappings := old(track).layoutMappings, resized := track.resized)
        invariant forall k :: 0 <= k < |track.resized| ==> EntryName(disk, suffix, track.resized[k]) in disk.parts
        invariant forall k :: 0 <= k < i && targets[k].Listed? && targets[k].inSuper ==>
          EntryName(disk, suffix, targets[k].bare) in changed ==> targets[k].bare in track.resized
      {
        if targets[i].Listed? && targets[i].inSuper {
          var bare := targets[i].bare;
          if bare + suffix in changed || bare in changed {
            track := track.(resized := track.resized + [bare]);
          }
        }
      }
      ghost var listed := NO_TRACKERS.(layoutMappings := track.layoutMappings);
      TrackedStart(disk, m0, suffix, track.layoutMappings);
      TrackedRemember(disk, m0, suffix, disk, mapped, listed, track, released);
    }

    /** Before the commit devices only disappear. */
    ghost predicate OnlyReleased(m0: Mappings)
      reads this`mapped
    {
      forall n :: n in mapped ==> Untouched(m0, mapped, n)
    }

    /** Lets go of one device the rollback will map again. */
    method ReleaseRecorded(name: string, works: bool, ghost t0: Table, ghost m0: Mappings) returns (ok: bool)
      requires Tracked(t0, m0, suffix, disk, mapped, track, released) && OnlyReleased(m0)
      requires name in m0 ==> Recorded(t0, suffix, track, name)
      modifies this`mapped, this`released
      ensures disk == old(disk) && track == old(track)
      ensures Tracked(t0, m0, suffix, disk, mapped, track, released) && OnlyReleased(m0)
      ensures works ==> ok
      ensures mapped == if ok then old(mapped) - {name} else old(mapped)
    {
      TrackedRelease(t0, m0, suffix, disk, mapped, track, released, name);
      ok := ReleaseDevice(name, works);
    }

    method ReleaseLayout(works: bool, ghost m0: Mappings) returns (ok: bool)
      requires Tracked(disk, m0, suffix, disk, mapped, track, released) && !track.metadataChanged && OnlyReleased(m0)
      requires mapped == m0
      modifies this`mapped, this`track, this`released
      ensures Tracked(disk, m0, suffix, disk, mapped, track, released) && OnlyReleased(m0)
      ensures track == old(track).(originalMappings := track.originalMappings)
      ensures works ==> ok
      ensures ok ==> forall n :: n in track.layoutMappings ==> n !in mapped && (n in m0 ==> n in track.originalMappings)
    {
      ghost var t0 := disk;
      for i := 0 to |track.layoutMappings|
        invariant Tracked(t0, m0, suffix, disk, mapped, track, released) && OnlyReleased(m0)
        invariant track == old(track).(originalMappings := track.originalMappings)
        invariant forall k :: 0 <= k < i ==>
          var n := track.layoutMappings[k]; n !in mapped && (n in m0 ==> n in track.originalMappings)
        invariant forall n :: n in m0 ==> n in mapped || n in track.originalMappings
      {
        var name := track.layoutMappings[i];
        if name in mapped {
          ghost var before := track;
          track := track.(originalMappings := track.originalMappings + [name]);
          TrackedRemember(t0, m0, suffix, disk, mapped, before, track, released);
          ok := ReleaseRecorded(name, works, t0, m0);
          if !ok { return; }
        }
      }
      ok := true;
    }

    method ReleaseChanged(changed: seq<string>, works: bool, ghost m0: Mappings) returns (ok: bool)
      requires Tracked(disk, m0, suffix, disk, mapped, track, released) && OnlyReleased(m0)
      requires forall n :: n in changed ==> n in track.layoutMappings || n in ResizedNames(disk, suffix, track.resized)
      requires forall n :: n in track.layoutMappings ==> n !in mapped
      modifies this`mapped, this`released
      ensures Tracked(disk, m0, suffix, disk, mapped, track, released) && OnlyReleased(m0)
      ensures forall n :: n in mapped ==> n in old(mapped)
      ensures works ==> ok
      ensures ok ==> forall n :: n in changed ==> n !in mapped
    {
      ghost var t0 := disk;
      for i := 0 to |changed|
        invariant Tracked(t0, m0, suffix, disk, mapped, track, released) && OnlyReleased(m0)
        invariant forall n :: n in mapped ==> n in old(mapped)
        invariant forall k :: 0 <= k < i ==> changed[k] !in mapped
      {
        if changed[i] !in track.layoutMappings {
          ok := ReleaseRecorded(changed[i], works, t0, m0);
          if !ok { return; }
        }
      }
      ok := true;
    }

    method ReleaseCows(cows: seq<string>, works: bool, ghost m0: Mappings) returns (ok: bool)
      requires Tracked(disk, m0, suffix, disk, mapped, track, released) && !track.metadataChanged && OnlyReleased(m0)
      requires forall n :: n in cows ==> n in disk.parts
      modifies this`mapped, this`track, this`released
      ensures Tracked(disk, m0, suffix, disk, mapped, track, released) && OnlyReleased(m0)
      ensures track == old(track).(unmappedCows := track.unmappedCows)
      ensures forall n :: n in mapped ==> n in old(mapped)
      ensures works ==> ok
      ensures ok ==> forall n :: n in cows ==> n !in mapped
    {
      ghost var t0 := disk;
      for i := 0 to |cows|
        invariant Tracked(t0, m0, suffix, disk, mapped, track, released) && OnlyReleased(m0)
        invariant track == old(track).(unmappedCows := track.unmappedCows)
        invariant forall n :: n in mapped ==> n in old(mapped)
        invariant forall k :: 0 <= k < i ==> cows[k] !in mapped
      {
        if cows[i] in mapped {
          ghost var before, gone, was := mapped, released, track;
          ok := ReleaseDevice(cows[i], works);
          if !ok { return; }
          track := track.(unmappedCows := track.unmappedCows + [cows[i]]);
          TrackedRemember(t0, m0, suffix, disk, before, was, track, gone);
          TrackedRelease(t0, m0, suffix, disk, before, track, gone, cows[i]);
        }
      }
      ok := true;
    }

    /** Releases every device the new table would change, in the order the trackers rely on. */
    method ReleaseDevices(targets: seq<Target>, bytes: seq<nat>, images: seq<LogicalImageSize>,
                          layout: Option<RomImageLayout>, changed: seq<string>, cows: seq<string>, works: bool,
                          ghost m0: Mappings)
      returns (ok: bool)
      requires |targets| == |bytes| && images == ImagesOf(disk, suffix, targets, bytes)
      requires TargetsOk(disk, suffix, targets, bytes, layout.Some?)
      requires mapped == m0 && track == NO_TRACKERS.(layoutMappings := track.layoutMappings) && released == {}
      requires forall n :: n in changed ==> Named(images, n)
      requires layout.Some? ==> AllListed(images, track.layoutMappings)
      requires layout.None? ==> forall n :: ChangeLists(suffix, targets, changed, n) ==> n in track.layoutMappings
      requires forall n :: n in cows ==> n in disk.parts
      modifies this`mapped, this`track, this`released
      ensures Tracked(disk, m0, suffix, disk, mapped, track, released) && OnlyReleased(m0) && !track.metadataChanged
      ensures works ==> ok
      ensures track.layoutMappings == old(track).layoutMappings
      ensures ok ==> forall n :: n in track.layoutMappings ==> n !in mapped && (n in m0 ==> n in track.originalMappings)
      ensures ok ==> forall n :: n in changed || n in cows ==> n !in mapped
      ensures ok ==> forall n :: n in changed ==> InScope(disk, suffix, track, n)
    {
      forall i | 0 <= i < |targets| && targets[i].Listed? && targets[i].inSuper
        ensures EntryName(disk, suffix, targets[i].bare) in disk.parts
      {
        assert TargetOk(disk, suffix, targets[i], bytes[i], layout.Some?);
      }
      RememberResized(targets, changed, m0);
      forall n | n in changed ensures n in track.layoutMappings || n in ResizedNames(disk, suffix, track.resized) {
        var k :| 0 <= k < |images| && images[k].name == n;
        CollectedImageHasTarget(disk, suffix, targets, bytes, images[k]);
        var i :| 0 <= i < |targets| && ImageOf(disk, suffix, targets[i], bytes[i]) == [images[k]];
        assert ImageOf(disk, suffix, targets[i], bytes[i])[0].name == n;
        assert targets[i].Logical? ==> ChangeLists(suffix, targets, changed, n);
      }
      ok := ReleaseLayout(works, m0);
      if !ok { return; }
      ok := ReleaseChanged(changed, works, m0);
      if !ok { return; }
      ok := ReleaseCows(cows, works, m0);
    }

    // ----- preparation: commit and devices -----

    /** Writes the new table and maps `remap` from it. */
    method CommitAndRemap(updated: Table, remap: seq<string>, works: bool, ghost t0: Table, ghost m0: Mappings)
      returns (ok: bool)
      requires Tracked(t0, m0, suffix, disk, mapped, track, released) && OnlyReleased(m0)
      requires forall n :: n in m0 && n in track.layoutMappings ==> n in track.originalMappings
      requires forall n :: n in remap ==> InScope(t0, suffix, track, n)
      requires Coherent(updated, mapped)
      requires Logged()
      modifies this`disk, this`mapped, this`track, this`trace, this`phase
      ensures Tracked(t0, m0, suffix, disk, mapped, track, released)
      ensures track == old(track).(metadataChanged := track.metadataChanged)
      ensures Logged() && (phase == old(phase) || phase == Next(old(phase), Commit))
      ensures works && (forall n :: n in remap ==> n in updated.parts) ==> ok
      ensures ok ==> track.metadataChanged && disk == updated && Coherent(disk, mapped)
      ensures ok ==> forall n :: n in remap ==> n in mapped
    {
      var idle: bool := *;
      if !idle && !works { return false; }
      TrackedCommitAny(t0, m0, suffix, disk, mapped, track, released);
      assert forall n :: InScope(t0, suffix, track, n) ==> InScope(t0, suffix, track.(metadataChanged := true), n);
      track := track.(metadataChanged := true);
      ok := UpdatePartitionTable(updated, works, Commit);
      if !ok { return; }
      ok := Remap(remap, works, t0, m0);
    }

    method Remap(names: seq<string>, works: bool, ghost t0: Table, ghost m0: Mappings) returns (ok: bool)
      requires Tracked(t0, m0, suffix, disk, mapped, track, released) && track.metadataChanged && Coherent(disk, mapped)
      requires forall n :: n in names ==> InScope(t0, suffix, track, n)
      modifies this`mapped
      ensures Tracked(t0, m0, suffix, disk, mapped, track, released) && Coherent(disk, mapped)
      ensures works && (forall n :: n in names ==> n in disk.parts) ==> ok
      ensures ok ==> forall n :: n in names ==> n in mapped
    {
      for i := 0 to |names|
        invariant Tracked(t0, m0, suffix, disk, mapped, track, released) && Coherent(disk, mapped)
        invariant forall k :: 0 <= k < i ==> names[k] in mapped
      {
        if names[i] !in mapped && names[i] in disk.parts {
          TrackedMap(t0, m0, suffix, disk, mapped, track, released, names[i], disk.parts[names[i]].extents);
        }
        ok := MapLogicalPartition(names[i], works);
        if !ok { return; }
      }
      ok := true;
    }

    /** The rollback reaches `n`, or `n` still has the blocks of the checkpoint. */
    ghost predicate Covered(t0: Table, n: string)
      reads this
    {
      InScope(t0, suffix, track, n) ||
      (n in disk.parts ==> n in t0.parts && disk.parts[n].extents == t0.parts[n].extents)
    }

    /** Gives every target a block device, mapping "/logical/" targets that have none yet; no device goes away. */
    method FillBlocks(targets: seq<Target>, works: bool, ghost t0: Table, ghost m0: Mappings) returns (ok: bool)
      requires Tracked(t0, m0, suffix, disk, mapped, track, released) && Coherent(disk, mapped)
      requires track.metadataChanged || track.layoutMappings == []
      requires forall i :: 0 <= i < |targets| && targets[i].Logical? ==> Covered(t0, targets[i].bare + suffix)
      modifies this`mapped
      ensures Tracked(t0, m0, suffix, disk, mapped, track, released) && Coherent(disk, mapped)
      ensures works && (forall i ::
                         0 <= i < |targets| && targets[i].Logical? ==> targets[i].bare + suffix in disk.parts)
        ==> ok
      ensures forall n :: n in old(mapped) ==> Untouched(old(mapped), mapped, n)
      ensures ok ==> forall i :: 0 <= i < |targets| && targets[i].Logical? ==> targets[i].bare + suffix in mapped
    {
      for i := 0 to |targets|
        invariant Tracked(t0, m0, suffix, disk, mapped, track, released) && Coherent(disk, mapped)
        invariant forall n :: n in old(mapped) ==> Untouched(old(mapped), mapped, n)
        invariant forall k :: 0 <= k < i && targets[k].Logical? ==> targets[k].bare + suffix in mapped
      {
        if targets[i].Logical? {
          var name := targets[i].bare + suffix;
          if name !in mapped {
            if name in disk.parts {
              assert Covered(t0, name);
              TrackedMap(t0, m0, suffix, disk, mapped, track, released, name, disk.parts[name].extents);
            }
            ok := MapLogicalPartition(name, works);
            if !ok { return; }
          }
        } else if targets[i].Listed? {
          var hasBlock: bool := *;
          if !hasBlock && !works { return false; }
        }
      }
      ok := true;
    }

    /** Every image is in reach of a rollback, or its blocks are those of the checkpoint. */
    ghost predicate ImagesCovered(t0: Table, images: seq<LogicalImageSize>)
      reads this
    {
      forall n :: Named(images, n) ==> Covered(t0, n)
    }

    /** Releases what the plan changes, commits it once, and maps the images again. */
    method ApplyPlan(targets: seq<Target>, bytes: seq<nat>, images: seq<LogicalImageSize>,
                     layout: Option<RomImageLayout>, updated: Table, changed: seq<string>, cows: seq<string>,
                     works: bool, ghost m0: Mappings)
      returns (ok: bool)
      requires |targets| == |bytes| && images == ImagesOf(disk, suffix, targets, bytes)
      requires m0 == mapped && track == NO_TRACKERS.(layoutMappings := track.layoutMappings) && released == {}
      requires Coherent(disk, mapped) && TargetsOk(disk, suffix, targets, bytes, layout.Some?)
      requires geometry.blockBytes > 0 && HoldsImages(geometry, updated, images)
      requires KeepsOthers(disk, updated, changed, track.layoutMappings)
      requires AreStaleCows(disk, cows) && CowsGone(updated, cows)
      requires forall n :: n in changed ==> Named(images, n)
      requires layout.Some? ==> AllListed(images, track.layoutMappings)
      requires layout.None? ==> forall n :: ChangeLists(suffix, targets, changed, n) ==> n in track.layoutMappings
      requires Logged()
      modifies this`disk, this`mapped, this`track, this`trace, this`phase, this`released
      ensures Tracked(old(disk), m0, suffix, disk, mapped, track, released)
      ensures track.layoutMappings == old(track).layoutMappings
      ensures works ==> ok
      ensures Logged() && (phase == old(phase) || phase == Next(old(phase), Commit))
      ensures ok ==> disk == updated && Coherent(disk, mapped) && track.metadataChanged
      ensures ok ==> forall n :: n in (if layout.Some? then ImageNames(images) else changed) ==> n in mapped
      ensures ok ==> ImagesCovered(old(disk), images)
    {
      ghost var t0 := disk;
      ok := ReleaseDevices(targets, bytes, images, layout, changed, cows, works, m0);
      if !ok { return; }
      var remap := if layout.Some? then ImageNames(images) else changed;
      RemapIsNamed(geometry, updated, images, layout, changed, remap);
      ok := CommitAndRemap(updated, remap, works, t0, m0);
      forall n | n in changed || n in track.layoutMappings ensures InScope(t0, suffix, track, n) {
      }
    }

    // ----- preparation as a whole -----

    /** Prepares all targets with one commit; whatever fails, the trackers cover what was done. */
    method PrepareImageFlashTargets(request: Request, works: bool, ghost t0: Table, ghost m0: Mappings)
      returns (ok: bool)
      requires t0 == disk && m0 == mapped && track == NO_TRACKERS && released == {}
      requires WellFormed(geometry, disk) && Coherent(disk, mapped)
      requires Logged()
      modifies this`disk, this`mapped, this`track, this`trace, this`phase, this`released
      ensures Tracked(t0, m0, suffix, disk, mapped, track, released)
      ensures ListsOnly(track.layoutMappings, geometry, t0, suffix, request)
      ensures !HasLogical(request.targets) ==> track == NO_TRACKERS
      ensures Logged() && (phase == old(phase) || phase == Next(old(phase), Commit))
      ensures ok ==> Ready(geometry, t0, suffix, request, disk, mapped) && OnDisk(geometry, t0, suffix, request, disk)
      ensures ok ==> batchActive && Preparable(geometry, t0, suffix, request)
      ensures works && batchActive && Preparable(geometry, t0, suffix, request) ==> ok
      ensures works && batchActive ==> CleanStop(geometry, t0, m0, suffix, request, mapped, track)
    {
      TrackedStart(t0, m0, suffix, []);
      var targets, bytes, layout := request.targets, request.bytes, request.layout;
      if !batchActive || |targets| == 0 || |targets| != |bytes| { return false; }
      var collected, images := CollectImages(targets, bytes, layout.Some?, works);
      if !collected { return false; }
      ok := PrepareCollected(request, images, works, t0, m0);
    }

    /** Preparation once the images are known. */
    method PrepareCollected(request: Request, images: seq<LogicalImageSize>, works: bool,
                            ghost t0: Table, ghost m0: Mappings)
      returns (ok: bool)
      requires t0 == disk && m0 == mapped && track == NO_TRACKERS && released == {}
      requires WellFormed(geometry, disk) && Coherent(disk, mapped)
      requires 0 < |request.targets| == |request.bytes|
      requires images == ImagesOf(disk, suffix, request.targets, request.bytes)
      requires TargetsOk(disk, suffix, request.targets, request.bytes, request.layout.Some?)
      requires forall i :: 0 <= i < |images| ==> images[i].name in disk.parts || request.layout.Some?
      requires Logged()
      modifies this`disk, this`mapped, this`track, this`trace, this`phase, this`released
      ensures Tracked(t0, m0, suffix, disk, mapped, track, released)
      ensures ListsOnly(track.layoutMappings, geometry, t0, suffix, request)
      ensures !HasLogical(request.targets) ==> track == NO_TRACKERS
      ensures Logged() && (phase == old(phase) || phase == Next(old(phase), Commit))
      ensures ok ==> Ready(geometry, t0, suffix, request, disk, mapped) && OnDisk(geometry, t0, suffix, request, disk)
      ensures ok ==> Preparable(geometry, t0, suffix, request)
      ensures works && Preparable(geometry, t0, suffix, request) ==> ok
      ensures works ==> CleanStop(geometry, t0, m0, suffix, request, mapped, track)
    {
      ImagesAreCollected(t0, suffix, request.targets, request.bytes);
      ok := PrepareImages(request, images, works, t0, m0);
      if !ok { return; }
      ok := FillPrepared(request, images, works, t0, m0);
    }

    /** The work on Super, if there is any. */
    method PrepareImages(request: Request, images: seq<LogicalImageSize>, works: bool,
                         ghost t0: Table, ghost m0: Mappings)
      returns (ok: bool)
      requires t0 == disk && m0 == mapped && track == NO_TRACKERS && released == {}
      requires WellFormed(geometry, disk) && Coherent(disk, mapped)
      requires 0 < |request.targets| == |request.bytes|
      requires images == ImagesOf(disk, suffix, request.targets, request.bytes)
      requires TargetsOk(disk, suffix, request.targets, request.bytes, request.layout.Some?)
      requires forall i :: 0 <= i < |images| ==> images[i].name in disk.parts || request.layout.Some?
      requires Logged()
      modifies this`disk, this`mapped, this`track, this`trace, this`phase, this`released
      ensures Tracked(t0, m0, suffix, disk, mapped, track, released)
      ensures ListsOnly(track.layoutMappings, geometry, t0, suffix, request)
      ensures !HasLogical(request.targets) ==> track == NO_TRACKERS
      ensures Logged() && (phase == old(phase) || phase == Next(old(phase), Commit))
      ensures works && Preparable(geometry, t0, suffix, request) ==> ok
      ensures works && !ok ==> CleanStop(geometry, t0, m0, suffix, request, mapped, track)
      ensures ok ==> Preparable(geometry, t0, suffix, request) && OnDisk(geometry, t0, suffix, request, disk)
      ensures ok ==> Coherent(disk, mapped) && geometry.blockBytes > 0 && HoldsImages(geometry, disk, images)
      ensures ok ==> track.metadataChanged || track.layoutMappings == []
      ensures ok ==> ImagesCovered(t0, images) && ImagesMapped(t0, images, request.layout)
    {
      if images == [] {
        TrackedStart(t0, m0, suffix, []);
        ok := true;
      } else {
        LogicalTargetExists(t0, suffix, request.targets, request.bytes);
        ok := SuperStep(request, images, works, t0, m0);
      }
    }

    /** The work on Super, in terms of the request. */
    method SuperStep(request: Request, images: seq<LogicalImageSize>, works: bool, ghost t0: Table, ghost m0: Mappings)
      returns (ok: bool)
      requires t0 == disk && m0 == mapped && track == NO_TRACKERS && released == {}
      requires WellFormed(geometry, disk) && Coherent(disk, mapped)
      requires 0 < |request.targets| == |request.bytes|
      requires images == ImagesOf(disk, suffix, request.targets, request.bytes) && images != []
      requires TargetsOk(disk, suffix, request.targets, request.bytes, request.layout.Some?)
      requires forall i :: 0 <= i < |images| ==> images[i].name in disk.parts || request.layout.Some?
      requires Logged()
      modifies this`disk, this`mapped, this`track, this`trace, this`phase, this`released
      ensures Tracked(t0, m0, suffix, disk, mapped, track, released)
      ensures ListsOnly(track.layoutMappings, geometry, t0, suffix, request)
      ensures Logged() && (phase == old(phase) || phase == Next(old(phase), Commit))
      ensures works && Preparable(geometry, t0, suffix, request) ==> ok
      ensures works && !ok ==> CleanStop(geometry, t0, m0, suffix, request, mapped, track)
      ensures ok ==> Preparable(geometry, t0, suffix, request) && OnDisk(geometry, t0, suffix, request, disk)
      ensures ok ==> Coherent(disk, mapped) && geometry.blockBytes > 0 && HoldsImages(geometry, disk, images)
      ensures ok ==> track.metadataChanged || track.layoutMappings == []
      ensures ok ==> ImagesCovered(t0, images) && ImagesMapped(t0, images, request.layout)
    {
      var targets, bytes, layout := request.targets, request.bytes, request.layout;
      ok := PrepareSuper(targets, bytes, images, layout, works, t0, m0);
      if works || track.layoutMappings != [] {
        ListingOfRequest(geometry, t0, suffix, request, images, track.layoutMappings);
      }
      if ok {
        CommittedIsAccepted(geometry, t0, disk, suffix, images, layout);
      }
    }

    /** The devices the commit had to make are there. */
    ghost predicate ImagesMapped(t0: Table, images: seq<LogicalImageSize>, layout: Option<RomImageLayout>)
      reads this
    {
      forall n :: (if layout.Some? then Named(images, n) else n in Changed(geometry, t0.parts, images)) ==> n in mapped
    }

    method FillPrepared(request: Request, images: seq<LogicalImageSize>, works: bool, ghost t0: Table,
                        ghost m0: Mappings)
      returns (ok: bool)
      requires |request.targets| == |request.bytes|
      requires AllCollected(t0, suffix, request.targets, request.bytes, images)
      requires Tracked(t0, m0, suffix, disk, mapped, track, released) && Coherent(disk, mapped)
      requires ImagesCovered(t0, images) && ImagesMapped(t0, images, request.layout)
      requires geometry.blockBytes > 0 && HoldsImages(geometry, disk, images)
      requires track.metadataChanged || track.layoutMappings == []
      modifies this`mapped
      ensures Tracked(t0, m0, suffix, disk, mapped, track, released)
      ensures works ==> ok
      ensures ok ==> Ready(geometry, t0, suffix, request, disk, mapped)
    {
      var targets, bytes, layout := request.targets, request.bytes, request.layout;
      forall i | 0 <= i < |targets| && InSuper(targets[i])
        ensures Named(images, SuperName(t0, suffix, targets[i])) && Covered(t0, SuperName(t0, suffix, targets[i]))
        ensures targets[i].Logical? || TargetReady(geometry, t0, suffix, targets[i], bytes[i], layout, disk, mapped)
        ensures SuperName(t0, suffix, targets[i]) in disk.parts
        ensures |disk.parts[SuperName(t0, suffix, targets[i])].extents| == BlocksFor(geometry, bytes[i])
      {
        var n := SuperName(t0, suffix, targets[i]);
        var k :| 0 <= k < |images| && images[k] == LogicalImageSize(n, bytes[i]);
        assert Named(images, n);
        ChangedIff(geometry, t0.parts, images, n);
      }
      ok := FillBlocks(targets, works, t0, m0);
    }

    /** The part of preparation that plans, releases, commits and remaps. */
    method PrepareSuper(targets: seq<Target>, bytes: seq<nat>, images: seq<LogicalImageSize>,
                        layout: Option<RomImageLayout>, works: bool, ghost t0: Table, ghost m0: Mappings)
      returns (ok: bool)
      requires t0 == disk && m0 == mapped && track == NO_TRACKERS && released == {}
      requires WellFormed(geometry, disk) && Coherent(disk, mapped)
      requires |targets| == |bytes| && images == ImagesOf(disk, suffix, targets, bytes)
      requires TargetsOk(disk, suffix, targets, bytes, layout.Some?)
      requires forall i :: 0 <= i < |images| ==> images[i].name in disk.parts || layout.Some?
      requires Logged()
      modifies this`disk, this`mapped, this`track, this`trace, this`phase, this`released
      ensures Tracked(t0, m0, suffix, disk, mapped, track, released)
      ensures Logged() && (phase == old(phase) || phase == Next(old(phase), Commit))
      ensures track.layoutMappings == [] ||
        ListingIs(track.layoutMappings, geometry, t0, suffix, targets, images, layout)
      ensures works ==> ListingIs(track.layoutMappings, geometry, t0, suffix, targets, images, layout)
      ensures works && SuperAccepts(geometry, t0, suffix, images, layout) ==> ok
      ensures works && !ok ==> OnlyListed(geometry, t0, m0, suffix, targets, images, layout, mapped, track)
      ensures ok ==> CommittedTable(geometry, t0, disk, suffix, images, layout)
      ensures ok ==> Coherent(disk, mapped) && HoldsImages(geometry, disk, images)
      ensures ok ==> track.metadataChanged || track.layoutMappings == []
      ensures ok ==> ImagesCovered(t0, images) && ImagesMapped(t0, images, layout)
    {
      var updated, changed, cows;
      ok, updated, changed, cows := PlanTables(targets, images, layout, works);
      TrackedStart(t0, m0, suffix, track.layoutMappings);
      if !ok { return; }
      if layout.Some? || changed != [] || cows != [] {
        assert layout.None? ==> forall n :: ChangeLists(suffix, targets, changed, n) ==> n in track.layoutMappings by {
          ListingHasChanges(geometry, t0, suffix, targets, images, layout, track.layoutMappings);
        }
        ok := ApplyPlan(targets, bytes, images, layout, updated, changed, cows, works, m0);
        if ok && layout.Some? {
          NamesAreNamed(images);
        }
      } else {
        CommittedIsAccepted(geometry, t0, updated, suffix, images, layout);
        NothingToCommit(geometry, t0, suffix, images);
        NothingListed(geometry, t0, suffix, targets, images, track.layoutMappings);
      }
    }

    // ----- the batch -----

    /** Claims the devices and writes the images; the claim and every write may fail. */
    method ClaimAndWrite(count: nat) returns (ok: bool, started: bool)
      requires Logged() && (phase == Working || phase == Committed)
      modifies this`trace, this`phase
      ensures Logged() && phase == if started then Written else old(phase)
      ensures ok ==> started
      ensures disk == old(disk) && mapped == old(mapped) && track == old(track) && released == old(released)
    {
      started := false;
      ok := *;
      if !ok { return; }
      started := true;
      Log(ImageWrite);
      for i := 0 to count
        invariant Logged() && phase == Written
      {
        ok := *;
        if !ok { return; }
        Log(ImageWrite);
      }
      ok := true;
    }

    /** The caller's work: prepare, claim the devices, then write the images. */
    method FlashImages(request: Request, works: bool, ghost t0: Table, ghost m0: Mappings)
      returns (ok: bool, started: bool)
      requires t0 == disk && m0 == mapped && track == NO_TRACKERS && released == {}
      requires WellFormed(geometry, disk) && Coherent(disk, mapped)
      requires Logged() && phase == Working
      modifies this`disk, this`mapped, this`track, this`trace, this`phase, this`released
      ensures Tracked(t0, m0, suffix, disk, mapped, track, released)
      ensures ListsOnly(track.layoutMappings, geometry, t0, suffix, request)
      ensures !HasLogical(request.targets) ==> track == NO_TRACKERS
      ensures ok ==> started
      ensures Logged() && if started then phase == Written else phase == Working || phase == Committed
      ensures started ==>
        Ready(geometry, t0, suffix, request, disk, mapped) && OnDisk(geometry, t0, suffix, request, disk)
      ensures works && batchActive ==> CleanStop(geometry, t0, m0, suffix, request, mapped, track)
    {
      started := false;
      ok := PrepareImageFlashTargets(request, works, t0, m0);
      if ok {
        ok, started := ClaimAndWrite(|request.targets|);
      }
    }

    /** The rollback of a failed operation, and what it achieves of the request. */
    method UndoFailed(request: Request, checkpoint: Option<Table>,
                      undoWorks: bool, ghost clean: bool, ghost t0: Table, ghost m0: Mappings)
      returns (outcome: Outcome)
      requires Coherent(t0, m0) && Tracked(t0, m0, suffix, disk, mapped, track, released)
      requires ListsOnly(track.layoutMappings, geometry, t0, suffix, request)
      requires checkpoint == Some(t0) || (checkpoint == None && track == NO_TRACKERS)
      requires clean ==> CleanStop(geometry, t0, m0, suffix, request, mapped, track)
      requires Logged()
      modifies this`disk, this`mapped, this`trace, this`phase
      ensures track == old(track) && released == old(released)
      ensures undoWorks ==> outcome != Incomplete
      ensures Logged() && (phase == old(phase) || phase == Next(old(phase), CheckpointWritten))
      ensures outcome != Incomplete ==>
        RolledBack(geometry, t0, m0, suffix, request, disk, mapped, released)
      ensures clean && outcome != Incomplete ==>
        LosesExactly(geometry, t0, m0, suffix, request, mapped)
    {
      ghost var midDisk, mid := disk, mapped;
      outcome := Rollback(checkpoint, undoWorks, m0);
      if outcome != Incomplete {
        UndoIsAtomic(t0, m0, suffix, midDisk, mid, track, released, disk, mapped, outcome);
        if clean {
          UndoIsExact(geometry, t0, m0, suffix, request, midDisk, mid, track, released, mapped, outcome);
        }
      }
    }

    /** The operation, undone when it fails before the writer starts. */
    method OperateOrRollBack(request: Request, probe: bool, checkpoint: Option<Table>, works: bool, undoWorks: bool)
      returns (ok: bool, started: bool, outcome: Outcome)
      requires track == NO_TRACKERS && released == {} && WellFormed(geometry, disk) && Coherent(disk, mapped)
      requires checkpoint == if probe && HasLogical(request.targets) then Some(disk) else None
      requires Logged() && phase == Working
      modifies this`disk, this`mapped, this`track, this`trace, this`phase, this`released
      ensures ok ==> started
      ensures Logged() && Busy(phase) && (started <==> phase == Written)
      ensures phase == Undone ==> !ok && probe
      ensures started ==>
        Ready(geometry, old(disk), suffix, request, disk, mapped) && OnDisk(geometry, old(disk), suffix, request, disk)
      ensures undoWorks ==> outcome != Incomplete
      ensures !started && probe && outcome != Incomplete ==>
        RolledBack(geometry, old(disk), old(mapped), suffix, request, disk, mapped, released)
      ensures works && batchActive && !started && probe && outcome != Incomplete ==>
        LosesExactly(geometry, old(disk), old(mapped), suffix, request, mapped)
    {
      ghost var t0, m0 := disk, mapped;
      outcome := NothingToUndo;
      ok, started := FlashImages(request, works, t0, m0);
      if !ok && probe && !started {
        outcome := UndoFailed(request, checkpoint, undoWorks, works && batchActive, t0, m0);
      }
    }

    /** The checkpoint and, once that is taken, the operation. */
    method Operate(request: Request, probe: bool, quiet: bool, works: bool, undoWorks: bool)
      returns (ok: bool, started: bool, outcome: Outcome)
      requires batchActive && track == NO_TRACKERS && released == {}
      requires WellFormed(geometry, disk) && Coherent(disk, mapped)
      requires Logged() && phase == Released
      modifies this`disk, this`mapped, this`track, this`trace, this`phase, this`released
      ensures ok ==> started
      ensures Logged() && (phase == Released || Busy(phase)) && (started <==> phase == Written)
      ensures phase == Undone ==> !ok && probe
      ensures started ==>
        Ready(geometry, old(disk), suffix, request, disk, mapped) && OnDisk(geometry, old(disk), suffix, request, disk)
      ensures undoWorks ==> outcome != Incomplete
      ensures !started && probe && outcome != Incomplete ==>
        RolledBack(geometry, old(disk), old(mapped), suffix, request, disk, mapped, released)
      ensures works && Busy(phase) && !started && probe && outcome != Incomplete ==>
        LosesExactly(geometry, old(disk), old(mapped), suffix, request, mapped)
    {
      ok, started, outcome := false, false, NothingToUndo;
      var checkpoint: Option<Table> := None;
      if !quiet { return; }
      if probe && HasLogical(request.targets) {
        var readable: bool := *;
        if !readable && !works { return; }
        checkpoint := Some(disk);
      }
      Log(Operation);
      ok, started, outcome := OperateOrRollBack(request, probe, checkpoint, works, undoWorks);
    }

    /** The whole batch; `ran` when it was not refused at once, and then `trace` is what it did. */
    method RunImageFlashBatch(request: Request, devices: set<nat>, probe: bool, works: bool, undoWorks: bool,
                              remountWorks: bool)
      returns (ok: bool, started: bool, outcome: Outcome, remounted: bool, ran: bool)
      requires WellFormed(geometry, disk) && Coherent(disk, mapped)
      modifies this, mounts
      ensures old(batchActive) ==> !ran && batchActive
      ensures !old(batchActive) ==> !batchActive && (works ==> ran)
      ensures !ran ==>
        && !ok && !started && disk == old(disk) && mapped == old(mapped) && track == old(track)
        && trace == old(trace) && phase == old(phase) && mounts.table == old(mounts.table)
      ensures ran ==> GoodRun(trace) && track == NO_TRACKERS
      ensures ran ==> (started <==> ImageWrite in trace)
      ensures ok ==> started
      ensures ran && CheckpointWritten in trace ==> !ok && !started && probe
      ensures started ==>
        Ready(geometry, old(disk), suffix, request, disk, mapped) && OnDisk(geometry, old(disk), suffix, request, disk)
      ensures remountWorks ==> remounted
      ensures remounted ==> multiset(mounts.table) == multiset(old(mounts.table))
      ensures undoWorks ==> outcome != Incomplete
      ensures ran && !started && probe && outcome != Incomplete ==>
        RolledBack(geometry, old(disk), old(mapped), suffix, request, disk, mapped, released)
      ensures ran && works && Operation in trace && !started && probe && outcome != Incomplete ==>
        LosesExactly(geometry, old(disk), old(mapped), suffix, request, mapped)
    {
      ok, started, outcome, remounted, ran := false, false, NothingToUndo, true, false;
      if batchActive { return; }
      var resolved: bool := *;
      if !resolved && !works { return; }
      ran := true;
      ghost var all := mounts.table;
      var quiet, plan, gone := Begin(devices);
      ok, started, outcome := Operate(request, probe, quiet, works, undoWorks);
      remounted := Finish(plan, gone, remountWorks, all);
    }

    /** Claims the batch and releases the mounts of its devices. */
    method Begin(devices: set<nat>) returns (quiet: bool, plan: seq<FlashMounts.FlashMount>, gone: set<string>)
      modifies this`track, this`batchActive, this`released, this`trace, this`phase, mounts
      ensures disk == old(disk) && mapped == old(mapped)
      ensures batchActive && track == NO_TRACKERS && released == {} && Logged() && phase == Released
      ensures FlashMounts.Restorable(old(mounts.table), mounts.table, plan, gone)
    {
      track, batchActive, released := NO_TRACKERS, true, {};
      trace, phase := [], Idle;
      Log(Quiesce);
      quiet, plan, gone := mounts.Quiesce(devices);
    }

    /** Gives the batch free, puts the mounts back and ends the run. */
    method Finish(plan: seq<FlashMounts.FlashMount>, gone: set<string>, works: bool,
                  ghost all: seq<FlashMounts.FlashMount>)
      returns (remounted: bool)
      requires Logged() && (phase == Released || Busy(phase)) && FlashMounts.Restorable(all, mounts.table, plan, gone)
      modifies this`track, this`batchActive, this`trace, this`phase, mounts
      ensures disk == old(disk) && mapped == old(mapped) && released == old(released)
      ensures !batchActive && track == NO_TRACKERS && GoodRun(trace)
      ensures ImageWrite in trace <==> old(phase) == Written
      ensures CheckpointWritten in trace <==> old(phase) == Undone
      ensures Operation in trace <==> Busy(old(phase))
      ensures works ==> remounted
      ensures remounted ==> multiset(mounts.table) == multiset(all)
    {
      batchActive := false;
      remounted := mounts.RestoreAll(plan, gone, works, all);
      CloseRun();
    }

    /** Forgets the trackers and ends the run. */
    method CloseRun()
      requires Logged() && (phase == Released || Busy(phase))
      modifies this`track, this`trace, this`phase
      ensures track == NO_TRACKERS && GoodRun(trace)
      ensures ImageWrite in trace <==> old(phase) == Written
      ensures CheckpointWritten in trace <==> old(phase) == Undone
      ensures Operation in trace <==> Busy(old(phase))
    {
      track := NO_TRACKERS;
      PhaseTells(trace);
      Log(Restore);
    }
  }

  /** What a rollback that reports no error has achieved, from wherever preparation stopped. */
  lemma {:induction false} UndoIsAtomic(t0: Table, m0: Mappings, suffix: string, midDisk: Table, mid: Mappings,
                                        tr: Trackers, released: set<string>, disk: Table, mapped: Mappings,
                                        outcome: Outcome)
    requires Coherent(t0, m0) && Tracked(t0, m0, suffix, midDisk, mid, tr, released)
    requires outcome == NothingToUndo || outcome == Restored
    requires outcome == NothingToUndo ==>
      && tr.resized == [] && !tr.metadataChanged && tr.unmappedCows == [] && tr.layoutMappings == []
      && disk == midDisk && mapped == mid
    requires outcome == Restored ==>
      && Remapped(t0, suffix, tr) <= t0.parts.Keys
      && disk == t0 && mapped == AfterRollback(t0, suffix, mid, tr)
    ensures disk == t0 && KnownBlocks(t0, m0, mapped) && GivenBack(t0, m0, mapped, released)
    ensures forall n :: n in m0 && !Untouched(m0, mapped, n) ==> n in tr.layoutMappings
  {
    if outcome == Restored {
      RollbackRestoresReleased(t0, m0, suffix, midDisk, mid, tr, released);
      forall n | n in m0 && !Untouched(m0, mapped, n) ensures n in tr.layoutMappings {
        RollbackLosesIff(t0, m0, suffix, midDisk, mid, tr, released, n);
      }
    } else {
      forall n ensures !Recorded(t0, suffix, tr, n) && !InScope(t0, suffix, tr, n) {
      }
    }
  }

  /** With working calls the rollback loses exactly the devices of a refused request. */
  lemma {:induction false} UndoIsExact(geo: Geometry, t0: Table, m0: Mappings, suffix: string, request: Request,
                                       midDisk: Table, mid: Mappings,
                                       tr: Trackers, released: set<string>, mapped: Mappings, outcome: Outcome)
    requires Coherent(t0, m0) && Tracked(t0, m0, suffix, midDisk, mid, tr, released)
    requires outcome == NothingToUndo || outcome == Restored
    requires outcome == NothingToUndo ==>
      && tr.resized == [] && !tr.metadataChanged && tr.unmappedCows == [] && tr.layoutMappings == [] && mapped == mid
    requires outcome == Restored ==>
      && Remapped(t0, suffix, tr) <= t0.parts.Keys && mapped == AfterRollback(t0, suffix, mid, tr)
    requires CleanStop(geo, t0, m0, suffix, request, mid, tr)
    ensures LosesExactly(geo, t0, m0, suffix, request, mapped)
  {
    forall n | n in m0 && n in t0.parts
      ensures !Untouched(m0, mapped, n) <==> RefusalLoses(geo, t0, suffix, request, n)
    {
      if outcome == Restored {
        RollbackLosesIff(t0, m0, suffix, midDisk, mid, tr, released, n);
      } else {
        assert !Recorded(t0, suffix, tr, n);
      }
    }
  }

  lemma {:induction false} ListingHasChanges(geo: Geometry, t0: Table, suffix: string, targets: seq<Target>,
                                             images: seq<LogicalImageSize>, layout: Option<RomImageLayout>,
                                             listed: seq<string>)
    requires ListingIs(listed, geo, t0, suffix, targets, images, layout)
    ensures layout.None? ==>
      forall n :: ChangeLists(suffix, targets, Changed(geo, t0.parts, images), n) ==> n in listed
  {
    forall n | layout.None? && ChangeLists(suffix, targets, Changed(geo, t0.parts, images), n) ensures n in listed {
      assert PlanLists(geo, t0, suffix, targets, images, layout, n);
    }
  }

  lemma {:induction false} NothingListed(geo: Geometry, t0: Table, suffix: string, targets: seq<Target>,
                                         images: seq<LogicalImageSize>, listed: seq<string>)
    requires ListingIs(listed, geo, t0, suffix, targets, images, None) && Changed(geo, t0.parts, images) == []
    ensures listed == []
  {
    forall n ensures n !in listed {
      assert n in listed <==> PlanLists(geo, t0, suffix, targets, images, None, n);
    }
    NoMembers(listed);
  }

  lemma {:induction false} NoMembers(s: seq<string>)
    ensures (forall n :: n !in s) ==> s == []
  {
    if s != [] {
      assert s[0] in s;
    }
  }

  lemma {:induction false} NamesAreNamed(images: seq<LogicalImageSize>)
    ensures forall n :: Named(images, n) ==> n in ImageNames(images)
  {
    forall n | Named(images, n) ensures n in ImageNames(images) {
      var k :| 0 <= k < |images| && images[k].name == n;
      assert ImageNames(images)[k] == n;
    }
  }

  lemma {:induction false} TrackedCommitAny(t0: Table, m0: Mappings, suffix: string, disk: Table, mapped: Mappings,
                                            tr: Trackers, released: set<string>)
    requires Tracked(t0, m0, suffix, disk, mapped, tr, released)
    requires forall n :: n in m0 && n in tr.layoutMappings ==> n in tr.originalMappings
    ensures forall disk' :: Tracked(t0, m0, suffix, disk', mapped, tr.(metadataChanged := true), released)
  {
    forall disk' ensures Tracked(t0, m0, suffix, disk', mapped, tr.(metadataChanged := true), released) {
      TrackedCommit(t0, m0, suffix, disk, disk', mapped, tr, released);
    }
  }

  lemma {:induction false} MapAllTwice(base: Mappings, t: Table, a: set<string>, b: set<string>)
    requires a <= t.parts.Keys && b <= t.parts.Keys
    ensures MapAll(MapAll(base, t, a), t, b) == MapAll(base, t, a + b)
  {
  }

  lemma {:induction false} RollbackMappings(t: Table, suffix: string, before: Mappings, tr: Trackers, base: Mappings,
                                            names: seq<string>)
    requires base == before - SeqSet(tr.layoutMappings) - SeqSet(names)
    requires forall n :: n in names <==> n in ResizedNames(t, suffix, tr.resized)
    requires forall n :: n in names ==> n in t.parts
    requires forall n :: n in tr.unmappedCows ==> n in t.parts
    ensures Remapped(t, suffix, tr) <= t.parts.Keys
    ensures
      var one := MapAll(base, t, set n | n in names && n in t.parts);
      var two := MapAll(one, t, set n | n in tr.originalMappings && n in t.parts);
      MapAll(two, t, set n | n in tr.unmappedCows && n in t.parts) == AfterRollback(t, suffix, before, tr)
  {
    var a := set n | n in names && n in t.parts;
    var b := set n | n in tr.originalMappings && n in t.parts;
    var c := set n | n in tr.unmappedCows && n in t.parts;
    MapAllTwice(base, t, a, b);
    MapAllTwice(base, t, a + b, c);
    assert a + b + c == Remapped(t, suffix, tr);
    BaseIsOutOfScope(t, suffix, before, tr, base, names);
  }

  lemma {:induction false} BaseIsOutOfScope(t: Table, suffix: string, before: Mappings, tr: Trackers, base: Mappings,
                                            names: seq<string>)
    requires base == before - SeqSet(tr.layoutMappings) - SeqSet(names)
    requires forall n :: n in names <==> n in ResizedNames(t, suffix, tr.resized)
    requires Remapped(t, suffix, tr) <= t.parts.Keys
    ensures MapAll(base, t, Remapped(t, suffix, tr)) == AfterRollback(t, suffix, before, tr)
  {
    forall n ensures n in base <==> n in before && !InScope(t, suffix, tr, n) {
      assert n in SeqSet(names) <==> n in names;
      assert n in SeqSet(tr.layoutMappings) <==> n in tr.layoutMappings;
    }
  }
}
