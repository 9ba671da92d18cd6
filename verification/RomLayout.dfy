/**
  Replacing one slot's logical layout by a ROM package's: the partitions and groups of that
  slot become the package's, everything else in Super is kept.
 */
module RomLayout {
  import opened Wrappers
  import opened SuperTable
  import opened SuperLayout

  datatype RomImageGroup = RomImageGroup(name: string, maximumBytes: nat)
  datatype RomImagePartition = RomImagePartition(name: string, group: string, attributes: nat)
  datatype RomImageLayout = RomImageLayout(groups: seq<RomImageGroup>, partitions: seq<RomImagePartition>)

  // ----- what a layout asks for -----

  /** Group limits by slot-suffixed name. */
  function GroupLimits(groups: seq<RomImageGroup>, suffix: string): map<string, nat> {
    if |groups| == 0 then map[] else
      var last := groups[|groups| - 1];
      GroupLimits(groups[..|groups| - 1], suffix)[last.name + suffix := last.maximumBytes]
  }

  /** Layout partitions by slot-suffixed name. */
  function Desired(partitions: seq<RomImagePartition>, suffix: string): map<string, RomImagePartition> {
    if |partitions| == 0 then map[] else
      var last := partitions[|partitions| - 1];
      Desired(partitions[..|partitions| - 1], suffix)[last.name + suffix := last]
  }

  predicate GroupsOk(groups: seq<RomImageGroup>, suffix: string) {
    |groups| == 0 ||
    var last, init := groups[|groups| - 1], groups[..|groups| - 1];
    && GroupsOk(init, suffix)
    && last.name != "" && last.maximumBytes > 0 && last.name + suffix !in GroupLimits(init, suffix)
  }

  predicate PartitionsOk(partitions: seq<RomImagePartition>, groups: set<string>, selected: set<string>,
                         suffix: string) {
    |partitions| == 0 ||
    var last, init := partitions[|partitions| - 1], partitions[..|partitions| - 1];
    && PartitionsOk(init, groups, selected, suffix)
    && last.name != "" && last.name + suffix !in Desired(init, suffix)
    && last.name + suffix in selected && last.group + suffix in groups
  }

  function Selected(images: seq<LogicalImageSize>): set<string> {
    set i | 0 <= i < |images| :: images[i].name
  }

  /** Exactly the checks of the ROM planner, before it touches the builder. */
  predicate RomRequestOk(layout: RomImageLayout, suffix: string, images: seq<LogicalImageSize>) {
    && (suffix == "_a" || suffix == "_b") && |layout.partitions| > 0
    && GroupsOk(layout.groups, suffix)
    && PartitionsOk(layout.partitions, GroupLimits(layout.groups, suffix).Keys, Selected(images), suffix)
    && Selected(images) == Desired(layout.partitions, suffix).Keys
  }

  // ----- what the planner achieves -----

  /** Partition `n` after the plan. */
  ghost predicate RomPart(t: Table, p: Partition, want: map<string, RomImagePartition>, suffix: string, n: string) {
    if n in want then
      p == Partition(want[n].group + suffix, want[n].attributes, if n in t.parts then t.parts[n].extents else [])
    else
      n in t.parts && !ProperSuffix(n, suffix) && p == t.parts[n]
  }

  ghost predicate EmptyGroup(parts: map<string, Partition>, g: string) {
    forall n :: n in parts ==> parts[n].group != g
  }

  ghost predicate RomPlanned(t: Table, t': Table, layout: RomImageLayout, suffix: string) {
    var want, limits := Desired(layout.partitions, suffix), GroupLimits(layout.groups, suffix);
    && (forall n :: n in t'.parts <==> n in want || (n in t.parts && !ProperSuffix(n, suffix)))
    && (forall n :: n in t'.parts ==> RomPart(t, t'.parts[n], want, suffix, n))
    && (forall g :: g in t'.groups <==>
        g in limits || (g in t.groups && !(ProperSuffix(g, suffix) && EmptyGroup(t'.parts, g))))
    && forall g :: g in t'.groups ==> t'.groups[g] == if g in limits then limits[g] else t.groups[g]
  }

  // ----- the planner, step by step -----

  method CheckGroups(groups: seq<RomImageGroup>, suffix: string) returns (ok: bool, names: set<string>)
    ensures ok <==> GroupsOk(groups, suffix)
    ensures ok ==> names == GroupLimits(groups, suffix).Keys
  {
    names := {};
    for i := 0 to |groups|
      invariant names == GroupLimits(groups[..i], suffix).Keys && GroupsOk(groups[..i], suffix)
    {
      var group := groups[i];
      assert groups[..i + 1][..i] == groups[..i];
      if group.name == "" || group.maximumBytes == 0 || group.name + suffix in names {
        GroupsPrefix(groups, suffix, i + 1);
        return false, names;
      }
      names := names + {group.name + suffix};
    }
    assert groups[..|groups|] == groups;
    ok := true;
  }

  method CheckPartitions(partitions: seq<RomImagePartition>, groups: set<string>, selected: set<string>, suffix: string)
    returns (ok: bool, names: set<string>)
    ensures ok <==> PartitionsOk(partitions, groups, selected, suffix)
    ensures ok ==> names == Desired(partitions, suffix).Keys
  {
    names := {};
    for i := 0 to |partitions|
      invariant names == Desired(partitions[..i], suffix).Keys
      invariant PartitionsOk(partitions[..i], groups, selected, suffix)
    {
      var part := partitions[i];
      assert partitions[..i + 1][..i] == partitions[..i];
      if part.name == "" || part.name + suffix in names || part.name + suffix !in selected ||
        part.group + suffix !in groups {
        PartitionsPrefix(partitions, groups, selected, suffix, i + 1);
        return false, names;
      }
      names := names + {part.name + suffix};
    }
    assert partitions[..|partitions|] == partitions;
    ok := true;
  }

  method CheckRom(layout: RomImageLayout, suffix: string, images: seq<LogicalImageSize>)
    returns (ok: bool, error: string)
    ensures ok <==> RomRequestOk(layout, suffix, images)
  {
    if (suffix != "_a" && suffix != "_b") || |layout.partitions| == 0 {
      return false, "ROM layout requires a known A/B slot";
    }
    var groupsOk, groups := CheckGroups(layout.groups, suffix);
    if !groupsOk {
      return false, "Invalid ROM partition group";
    }
    var selected := Selected(images);
    var partsOk, desired := CheckPartitions(layout.partitions, groups, selected, suffix);
    if !partsOk {
      return false, "Select every ROM logical image before applying its partition layout";
    }
    if selected != desired {
      return false, "Selected logical images differ from the ROM layout";
    }
    return true, "";
  }

  lemma {:induction false} GroupsPrefix(groups: seq<RomImageGroup>, suffix: string, i: nat)
    requires i <= |groups|
    ensures GroupsOk(groups, suffix) ==> GroupsOk(groups[..i], suffix)
  {
    if i < |groups| {
      GroupsPrefix(groups[..|groups| - 1], suffix, i);
      assert groups[..|groups| - 1][..i] == groups[..i];
    } else {
      assert groups[..i] == groups;
    }
  }

  lemma {:induction false} PartitionsPrefix(partitions: seq<RomImagePartition>, groups: set<string>,
                                            selected: set<string>, suffix: string, i: nat)
    requires i <= |partitions|
    ensures PartitionsOk(partitions, groups, selected, suffix) ==>
      PartitionsOk(partitions[..i], groups, selected, suffix)
  {
    if i < |partitions| {
      PartitionsPrefix(partitions[..|partitions| - 1], groups, selected, suffix, i);
      assert partitions[..|partitions| - 1][..i] == partitions[..i];
    } else {
      assert partitions[..i] == partitions;
    }
  }

  /** Every wanted partition has a slot name and a listed group. */
  lemma {:induction false} DesiredOk(partitions: seq<RomImagePartition>, groups: set<string>, selected: set<string>,
                                     suffix: string, n: string)
    requires PartitionsOk(partitions, groups, selected, suffix) && n in Desired(partitions, suffix)
    ensures ProperSuffix(n, suffix) && Desired(partitions, suffix)[n].group + suffix in groups
  {
    var last := partitions[|partitions| - 1];
    if n != last.name + suffix {
      DesiredOk(partitions[..|partitions| - 1], groups, selected, suffix, n);
    }
  }

  /** Slot partitions the layout does not name are removed. */
  method RemoveObsolete(b: MetadataBuilder, want: map<string, RomImagePartition>, suffix: string)
    requires b.Valid()
    modifies b`table
    ensures b.Valid()
    ensures b.table == old(b.table).(parts := Kept(old(b.table).parts, want, suffix))
  {
    ghost var t := b.table;
    var obsolete := set n | n in b.table.parts && ProperSuffix(n, suffix) && n !in want;
    assert b.table.parts == Remaining(t.parts, want, suffix, obsolete);
    while obsolete != {}
      invariant b.Valid() && b.table == t.(parts := Remaining(t.parts, want, suffix, obsolete))
      invariant forall n :: n in obsolete ==> ProperSuffix(n, suffix) && n !in want
    {
      var name :| name in obsolete;
      b.RemovePartition(name);
      RemainingNext(t.parts, want, suffix, obsolete, name);
      obsolete := obsolete - {name};
    }
    assert b.table.parts == Kept(t.parts, want, suffix);
  }

  /** Of the slot partitions the layout does not name, only `obsolete` are still there. */
  ghost function Remaining(parts: map<string, Partition>, want: map<string, RomImagePartition>, suffix: string,
                           obsolete: set<string>): map<string, Partition>
  {
    map n | n in parts && (n in obsolete || (ProperSuffix(n, suffix) ==> n in want)) :: parts[n]
  }

  lemma {:induction false} RemainingNext(parts: map<string, Partition>, want: map<string, RomImagePartition>,
                                         suffix: string, obsolete: set<string>, name: string)
    requires ProperSuffix(name, suffix) && name !in want
    ensures Remaining(parts, want, suffix, obsolete) - {name} == Remaining(parts, want, suffix, obsolete - {name})
  {
  }

  function Kept(parts: map<string, Partition>, want: map<string, RomImagePartition>,
                suffix: string): map<string, Partition> {
    map n | n in parts && (ProperSuffix(n, suffix) ==> n in want) :: parts[n]
  }

  lemma {:induction false} UpdateSum<K, V>(a: map<K, V>, b: map<K, V>, k: K, v: V)
    ensures (a + b)[k := v] == a + b[k := v]
  {
  }

  method SetGroup(b: MetadataBuilder, name: string, maximumBytes: nat) returns (ok: bool)
    requires b.Valid()
    modifies b`table
    ensures b.Valid()
    ensures ok <==> name !in old(b.table).groups || name != "default"
    ensures ok ==> b.table == old(b.table).(groups := old(b.table).groups[name := maximumBytes])
  {
    if name !in b.table.groups {
      ok := b.AddGroup(name, maximumBytes);
    } else {
      ok := b.ChangeGroupSize(name, maximumBytes);
    }
  }

  /** Listed groups are created or get the layout's limit. */
  method SetGroups(b: MetadataBuilder, groups: seq<RomImageGroup>, suffix: string) returns (ok: bool)
    requires b.Valid() && (suffix == "_a" || suffix == "_b")
    modifies b`table
    ensures b.Valid() && ok
    ensures b.table == old(b.table).(groups := old(b.table).groups + GroupLimits(groups, suffix))
  {
    ghost var t := b.table;
    for i := 0 to |groups|
      invariant b.Valid()
      invariant b.table == t.(groups := t.groups + GroupLimits(groups[..i], suffix))
    {
      var name := groups[i].name + suffix;
      assert name[|name| - 1] == suffix[1];
      assert groups[..i + 1][..i] == groups[..i];
      UpdateSum(t.groups, GroupLimits(groups[..i], suffix), name, groups[i].maximumBytes);
      var done := SetGroup(b, name, groups[i].maximumBytes);
      if !done { return false; }
    }
    assert groups[..|groups|] == groups;
    ok := true;
  }

  /** The partitions once the first wishes are granted. */
  function Assigned(parts: map<string, Partition>, want: map<string, RomImagePartition>,
                    suffix: string): map<string, Partition> {
    map n | n in parts.Keys + want.Keys ::
      if n in want
      then Partition(want[n].group + suffix, want[n].attributes, if n in parts then parts[n].extents else [])
      else parts[n]
  }

  method AssignOne(b: MetadataBuilder, name: string, group: string, attributes: nat) returns (ok: bool)
    requires b.Valid() && name != ""
    modifies b`table
    ensures b.Valid()
    ensures ok <==> group in old(b.table).groups
    ensures ok ==> b.table == old(b.table).(parts := old(b.table).parts[name :=
      Partition(group, attributes, if name in old(b.table).parts then old(b.table).parts[name].extents else [])])
  {
    if name !in b.table.parts {
      ok := b.AddPartition(name, group, attributes);
      if !ok { return; }
    }
    ok := b.ChangePartitionGroup(name, group);
    if !ok { return; }
    b.SetAttributes(name, attributes);
  }

  method AssignPartitions(b: MetadataBuilder, partitions: seq<RomImagePartition>, suffix: string) returns (ok: bool)
    requires b.Valid()
    requires forall i :: 0 <= i < |partitions| ==>
      partitions[i].name != "" && partitions[i].group + suffix in b.table.groups
    modifies b`table
    ensures b.Valid() && ok
    ensures b.table == old(b.table).(parts := Assigned(old(b.table).parts, Desired(partitions, suffix), suffix))
  {
    ghost var t := b.table;
    assert t.parts == Assigned(t.parts, map[], suffix);
    for i := 0 to |partitions|
      invariant b.Valid()
      invariant b.table == t.(parts := Assigned(t.parts, Desired(partitions[..i], suffix), suffix))
    {
      var part := partitions[i];
      var name, group := part.name + suffix, part.group + suffix;
      assert partitions[..i + 1][..i] == partitions[..i];
      AssignedNext(t.parts, Desired(partitions[..i], suffix), suffix, name, part);
      var granted := AssignOne(b, name, group, part.attributes);
      if !granted { return false; }
    }
    assert partitions[..|partitions|] == partitions;
    ok := true;
  }

  lemma {:induction false} AssignedNext(parts: map<string, Partition>, want: map<string, RomImagePartition>,
                                        suffix: string, name: string, part: RomImagePartition)
    ensures Assigned(parts, want[name := part], suffix) ==
            Assigned(parts, want, suffix)[name := Partition(part.group + suffix, part.attributes,
              if name in Assigned(parts, want, suffix) then Assigned(parts, want, suffix)[name].extents else [])]
  {
  }

  /** Slot groups the layout does not list are dropped once nothing is left in them. */
  method RemoveEmptyGroups(b: MetadataBuilder, limits: map<string, nat>, suffix: string)
    requires b.Valid()
    modifies b`table
    ensures b.Valid()
    ensures b.table.parts == old(b.table).parts
    ensures forall g :: g in b.table.groups <==>
      g in old(b.table).groups && (ProperSuffix(g, suffix) && g !in limits ==> !EmptyGroup(b.table.parts, g))
    ensures forall g :: g in b.table.groups ==> b.table.groups[g] == old(b.table).groups[g]
  {
    ghost var t := b.table;
    var left := b.table.groups.Keys;
    while left != {}
      invariant b.Valid() && b.table.parts == t.parts && left <= b.table.groups.Keys <= t.groups.Keys
      invariant forall g :: g in t.groups && g !in left ==>
        (g in b.table.groups <==> (ProperSuffix(g, suffix) && g !in limits ==> !EmptyGroup(t.parts, g)))
      invariant forall g :: g in b.table.groups ==> b.table.groups[g] == t.groups[g]
    {
      var g :| g in left;
      if ProperSuffix(g, suffix) && g !in limits {
        var empty := b.GroupIsEmpty(g);
        if empty {
          b.RemoveGroupAndPartitions(g);
        }
      }
      left := left - {g};
    }
  }

  method PlanRomImageLayout(b: MetadataBuilder, layout: RomImageLayout, suffix: string, images: seq<LogicalImageSize>)
    returns (ok: bool, error: string)
    requires b.Valid()
    modifies b`table
    ensures b.Valid()
    ensures ok <==> RomRequestOk(layout, suffix, images)
    ensures ok ==> RomPlanned(old(b.table), b.table, layout, suffix)
    ensures !ok ==> b.table == old(b.table)
  {
    ghost var t := b.table;
    ok, error := CheckRom(layout, suffix, images);
    if !ok { return; }
    var want, limits := Desired(layout.partitions, suffix), GroupLimits(layout.groups, suffix);
    RemoveObsolete(b, want, suffix);
    ok := SetGroups(b, layout.groups, suffix);
    forall i | 0 <= i < |layout.partitions|
      ensures layout.partitions[i].name != "" && layout.partitions[i].group + suffix in limits
    {
      PartitionsPrefix(layout.partitions, limits.Keys, Selected(images), suffix, i + 1);
    }
    ok := AssignPartitions(b, layout.partitions, suffix);
    RemoveEmptyGroups(b, limits, suffix);
    forall n | n in want ensures ProperSuffix(n, suffix) {
      DesiredOk(layout.partitions, limits.Keys, Selected(images), suffix, n);
    }
    RomSteps(t, b.table.parts, want, suffix);
  }

  lemma {:induction false} RomSteps(t: Table, parts: map<string, Partition>, want: map<string, RomImagePartition>,
                                    suffix: string)
    requires parts == Assigned(Kept(t.parts, want, suffix), want, suffix)
    ensures forall n :: n in parts <==> n in want || (n in t.parts && !ProperSuffix(n, suffix))
    ensures forall n :: n in parts ==> RomPart(t, parts[n], want, suffix, n)
  {
  }

  // ----- both planners together -----

  /**
    A full ROM flash leaves exactly the layout's partitions in the slot, each in its layout group, with
    its layout attributes and the size of its image; every other partition except the dropped COWs is
    untouched, and no slot group outside the layout holds a slot partition.
   */
  ghost predicate ExactRomTable(geo: Geometry, t: Table, t': Table, layout: RomImageLayout, suffix: string,
                                images: seq<LogicalImageSize>, cows: seq<string>)
    requires geo.blockBytes > 0
  {
    var want, limits := Desired(layout.partitions, suffix), GroupLimits(layout.groups, suffix);
    && (forall n :: n in t'.parts && ProperSuffix(n, suffix) <==> n in want)
    && (forall n :: n in want ==>
      && t'.parts[n].group == want[n].group + suffix && t'.parts[n].group in limits
      && t'.parts[n].attributes == want[n].attributes)
    && (forall i :: 0 <= i < |images| ==>
      images[i].name in t'.parts && |t'.parts[images[i].name].extents| == BlocksFor(geo, images[i].bytes))
    && (forall n :: !ProperSuffix(n, suffix) ==>
      && (n in t'.parts <==> n in t.parts && n !in cows)
      && (n in t'.parts ==> t'.parts[n] == t.parts[n]))
    && (forall g :: g in t'.groups && ProperSuffix(g, suffix) && g !in limits ==>
      forall n :: n in t'.parts && ProperSuffix(n, suffix) ==> t'.parts[n].group != g)
  }

  lemma {:induction false} RomThenImagesIsExact(geo: Geometry, t: Table, t1: Table, t2: Table, layout: RomImageLayout,
                                                suffix: string, images: seq<LogicalImageSize>, cows: seq<string>)
    requires geo.blockBytes > 0
    requires RomRequestOk(layout, suffix, images) && RomPlanned(t, t1, layout, suffix)
    requires ImagesOk(t1.parts, images) && CowsOk(t1.parts, images, cows)
    requires Planned(t1, t2, Wanted(geo, images), cows)
    ensures ExactRomTable(geo, t, t2, layout, suffix, images, cows)
  {
    var want, limits := Desired(layout.partitions, suffix), GroupLimits(layout.groups, suffix);
    forall n ensures n in want ==> ProperSuffix(n, suffix) && want[n].group + suffix in limits {
      if n in want {
        DesiredOk(layout.partitions, limits.Keys, Selected(images), suffix, n);
      }
    }
    forall n ensures n in Wanted(geo, images) <==> n in want {
      WantedKeys(geo, images, n);
      assert Named(images, n) <==> n in Selected(images);
    }
    forall c | c in cows ensures !ProperSuffix(c, suffix) {
      assert c[|c| - 1] == "-cow"[3];
    }
    forall n | n in t2.parts ensures PlannedPart(t1.parts[n], t2.parts[n], Wanted(geo, images), n)
                             ensures RomPart(t, t1.parts[n], want, suffix, n)
    {
    }
    forall i | 0 <= i < |images|
      ensures images[i].name in t2.parts && |t2.parts[images[i].name].extents| == BlocksFor(geo, images[i].bytes)
    {
      WantedAt(geo, images, i);
      assert images[i].name !in cows by {
        assert Named(images, images[i].name);
      }
      assert PlannedPart(t1.parts[images[i].name], t2.parts[images[i].name], Wanted(geo, images), images[i].name);
    }
  }
}
