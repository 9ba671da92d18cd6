/**
  What an image-flash request asks of Super: its images, when it can be prepared, what the committed table is, and
  which mappings are listed before it is known to fit.
 */
module FlashRequest {
  import opened Wrappers
  import opened SuperTable
  import opened SuperLayout
  import opened RomLayout
  import opened FlashTransaction

  /** What the caller of a batch asks for: the targets, their image sizes, and a package layout to apply. */
  datatype Request = Request(targets: seq<Target>, bytes: seq<nat>, layout: Option<RomImageLayout>)

  // ----- targets and images -----

  predicate ValidBare(bare: string) {
    |bare| > 0 && forall i :: 0 <= i < |bare| ==>
      'a' <= bare[i] <= 'z' || 'A' <= bare[i] <= 'Z' || '0' <= bare[i] <= '9' || bare[i] == '_' || bare[i] == '-'
  }

  /** A target that lives in Super: a "/logical/" one, or an fstab entry of a logical partition. */
  predicate InSuper(target: Target) {
    target.Logical? || (target.Listed? && target.inSuper)
  }

  /** Some selected target lives in Super. */
  predicate HasLogical(targets: seq<Target>) {
    exists i :: 0 <= i < |targets| && InSuper(targets[i])
  }

  /** The table entry of a target in Super. */
  function SuperName(t: Table, suffix: string, target: Target): string
    requires InSuper(target)
  {
    if target.Logical? then target.bare + suffix else EntryName(t, suffix, target.bare)
  }

  function ImageOf(t: Table, suffix: string, target: Target, bytes: nat): seq<LogicalImageSize> {
    if InSuper(target) then [LogicalImageSize(SuperName(t, suffix, target), bytes)] else []
  }

  function ImagesOf(t: Table, suffix: string, targets: seq<Target>, bytes: seq<nat>): seq<LogicalImageSize>
    requires |targets| == |bytes|
  {
    if |targets| == 0 then [] else
      ImagesOf(t, suffix, targets[..|targets| - 1], bytes[..|bytes| - 1]) +
      ImageOf(t, suffix, targets[|targets| - 1], bytes[|bytes| - 1])
  }

  /** A target that can be prepared, as far as its name and size go. */
  predicate TargetOk(t: Table, suffix: string, target: Target, bytes: nat, hasLayout: bool) {
    match target
    case Block(_) => true
    case Logical(bare) => ValidBare(bare) && bytes > 0 && bytes % 512 == 0 && (hasLayout || bare + suffix in t.parts)
    case Listed(bare, inSuper) =>
      0 < bytes <= INT64_MAX && (inSuper ==> bytes % 512 == 0 && EntryName(t, suffix, bare) in t.parts)
  }

  predicate TargetsOk(t: Table, suffix: string, targets: seq<Target>, bytes: seq<nat>, hasLayout: bool)
    requires |targets| == |bytes|
  {
    forall i :: 0 <= i < |targets| ==> TargetOk(t, suffix, targets[i], bytes[i], hasLayout)
  }

  /** Every target in Super has its image in `images`. */
  ghost predicate AllCollected(t: Table, suffix: string, targets: seq<Target>, bytes: seq<nat>,
                               images: seq<LogicalImageSize>)
    requires |targets| == |bytes|
  {
    forall i :: 0 <= i < |targets| && InSuper(targets[i]) ==>
      LogicalImageSize(SuperName(t, suffix, targets[i]), bytes[i]) in images
  }

  lemma {:induction false} ImagesAreCollected(t: Table, suffix: string, targets: seq<Target>, bytes: seq<nat>)
    requires |targets| == |bytes|
    ensures AllCollected(t, suffix, targets, bytes, ImagesOf(t, suffix, targets, bytes))
    decreases |targets|
  {
    if |targets| > 0 {
      var last := |targets| - 1;
      ImagesAreCollected(t, suffix, targets[..last], bytes[..last]);
      forall i | 0 <= i < |targets| && InSuper(targets[i])
        ensures LogicalImageSize(SuperName(t, suffix, targets[i]), bytes[i]) in ImagesOf(t, suffix, targets, bytes)
      {
        if i < last {
          assert targets[..last][i] == targets[i] && bytes[..last][i] == bytes[i];
        } else {
          assert ImageOf(t, suffix, targets[i], bytes[i])[0] ==
            LogicalImageSize(SuperName(t, suffix, targets[i]), bytes[i]);
        }
      }
    }
  }

  lemma {:induction false} CollectedImageHasTarget(t: Table, suffix: string, targets: seq<Target>, bytes: seq<nat>,
                                                   image: LogicalImageSize)
    requires |targets| == |bytes| && image in ImagesOf(t, suffix, targets, bytes)
    ensures exists i :: 0 <= i < |targets| && ImageOf(t, suffix, targets[i], bytes[i]) == [image]
    decreases |targets|
  {
    var last := |targets| - 1;
    if image in ImagesOf(t, suffix, targets[..last], bytes[..last]) {
      CollectedImageHasTarget(t, suffix, targets[..last], bytes[..last], image);
      var i :| 0 <= i < last && ImageOf(t, suffix, targets[..last][i], bytes[..last][i]) == [image];
      assert ImageOf(t, suffix, targets[i], bytes[i]) == [image];
    } else {
      assert image in ImageOf(t, suffix, targets[last], bytes[last]);
      assert ImageOf(t, suffix, targets[last], bytes[last]) == [image];
    }
  }

  lemma {:induction false} LogicalTargetExists(t: Table, suffix: string, targets: seq<Target>, bytes: seq<nat>)
    requires |targets| == |bytes| && ImagesOf(t, suffix, targets, bytes) != []
    ensures HasLogical(targets)
  {
    CollectedImageHasTarget(t, suffix, targets, bytes, ImagesOf(t, suffix, targets, bytes)[0]);
  }

  function ImageNames(images: seq<LogicalImageSize>): (names: seq<string>)
    ensures |names| == |images| && forall i :: 0 <= i < |images| ==> names[i] == images[i].name
  {
    seq(|images|, i requires 0 <= i < |images| => images[i].name)
  }

  // ----- what Super accepts -----

  ghost predicate AreStaleCows(t: Table, cows: seq<string>) {
    forall n :: n in cows <==> CowOk(t.parts, n)
  }

  /** The table the images are planned on: the one on disk, or the one the package layout makes of it. */
  ghost predicate AfterLayout(t0: Table, t1: Table, layout: Option<RomImageLayout>, suffix: string,
                              images: seq<LogicalImageSize>)
  {
    if layout.None? then t1 == t0
    else RomRequestOk(layout.value, suffix, images) && RomPlanned(t0, t1, layout.value, suffix)
  }

  /** The final sizes keep every group within its limit. */
  ghost predicate FinalWithinLimits(geo: Geometry, t: Table, want: map<string, nat>, cows: seq<string>)
    requires geo.blockBytes > 0
  {
    forall g :: g in t.groups ==> GroupAllows(geo, t.groups[g], Total(FinalShapes(t.parts, want, cows), Some(g)))
  }

  /** The images can be planned on `t1` and the result exported. */
  ghost predicate Accepts(geo: Geometry, t1: Table, images: seq<LogicalImageSize>, cows: seq<string>) {
    && geo.blockBytes > 0 && GroupsExist(t1) && Accepted(geo, t1, images, cows)
    && FinalWithinLimits(geo, t1, Wanted(geo, images), cows)
  }

  /** What Super can take: a table to plan on, and a plan on it that fits once the stale COWs are gone. */
  ghost predicate SuperAccepts(geo: Geometry, t0: Table, suffix: string, images: seq<LogicalImageSize>,
                               layout: Option<RomImageLayout>)
  {
    exists t1, cows ::
      AfterLayout(t0, t1, layout, suffix, images) && AreStaleCows(t0, cows) && Accepts(geo, t1, images, cows)
  }

  /** A request that can be prepared. */
  ghost predicate Preparable(geo: Geometry, t0: Table, suffix: string, request: Request) {
    match request
    case Request(targets, bytes, layout) =>
      && 0 < |targets| == |bytes| && TargetsOk(t0, suffix, targets, bytes, layout.Some?)
      && var images := ImagesOf(t0, suffix, targets, bytes);
         images == [] || SuperAccepts(geo, t0, suffix, images, layout)
  }

  /** `t'` is a plan of the images on the table the layout makes of `t0`. */
  ghost predicate PlannedFrom(geo: Geometry, t0: Table, t': Table, suffix: string, images: seq<LogicalImageSize>,
                              layout: Option<RomImageLayout>, t1: Table, cows: seq<string>)
  {
    && AfterLayout(t0, t1, layout, suffix, images) && AreStaleCows(t0, cows)
    && Accepts(geo, t1, images, cows) && Planned(t1, t', Wanted(geo, images), cows)
  }

  /** What a successful preparation leaves on disk. */
  ghost predicate CommittedTable(geo: Geometry, t0: Table, t': Table, suffix: string, images: seq<LogicalImageSize>,
                                 layout: Option<RomImageLayout>)
  {
    exists t1, cows :: PlannedFrom(geo, t0, t', suffix, images, layout, t1, cows)
  }

  lemma {:induction false} CommittedIsAccepted(geo: Geometry, t0: Table, t': Table, suffix: string,
                                               images: seq<LogicalImageSize>, layout: Option<RomImageLayout>)
    requires CommittedTable(geo, t0, t', suffix, images, layout)
    ensures SuperAccepts(geo, t0, suffix, images, layout)
  {
  }

  /**
    The frame of a committed table: its groups are within their limits; without a layout it is the old table with the
    images resized and the stale COWs gone, with one it is exactly the layout's table.
   */
  lemma {:induction false} CommittedIsExact(geo: Geometry, t0: Table, t': Table, suffix: string,
                                            images: seq<LogicalImageSize>, layout: Option<RomImageLayout>)
    returns (cows: seq<string>)
    requires CommittedTable(geo, t0, t', suffix, images, layout)
    ensures geo.blockBytes > 0 && WithinLimits(geo, t') && AreStaleCows(t0, cows)
    ensures layout.None? ==> Planned(t0, t', Wanted(geo, images), cows)
    ensures layout.Some? ==> ExactRomTable(geo, t0, t', layout.value, suffix, images, cows)
  {
    var t1, cs :| PlannedFrom(geo, t0, t', suffix, images, layout, t1, cs);
    cows := cs;
    ExportableIff(geo, t1, t', images, cows);
    if layout.Some? {
      RomThenImagesIsExact(geo, t0, t1, t', layout.value, suffix, images, cows);
    }
  }

  lemma {:induction false} AfterLayoutIsUnique(t0: Table, t1: Table, t2: Table, layout: Option<RomImageLayout>,
                                               suffix: string, images: seq<LogicalImageSize>)
    requires AfterLayout(t0, t1, layout, suffix, images) && AfterLayout(t0, t2, layout, suffix, images)
    ensures t1 == t2
  {
    if layout.Some? {
      var want := Desired(layout.value.partitions, suffix);
      forall n | n in t1.parts ensures n in t2.parts && t1.parts[n] == t2.parts[n] {
        assert RomPart(t0, t1.parts[n], want, suffix, n) && RomPart(t0, t2.parts[n], want, suffix, n);
      }
      assert t1.parts == t2.parts;
      assert t1.groups == t2.groups;
    }
  }

  lemma {:induction false} AcceptsAnyCowOrder(geo: Geometry, t1: Table, images: seq<LogicalImageSize>,
                                              cows: seq<string>, cows': seq<string>)
    requires (forall n :: n in cows <==> n in cows') && Accepts(geo, t1, images, cows)
    ensures Accepts(geo, t1, images, cows')
  {
    assert FinalShapes(t1.parts, Wanted(geo, images), cows) == FinalShapes(t1.parts, Wanted(geo, images), cows');
    forall i | 0 <= i < |cows'| ensures CowOk(t1.parts, cows'[i]) && !Named(images, cows'[i]) {
      assert cows'[i] in cows;
      var k :| 0 <= k < |cows| && cows[k] == cows'[i];
    }
  }

  lemma {:induction false} SuperAcceptsIff(geo: Geometry, t0: Table, suffix: string, images: seq<LogicalImageSize>,
                                           layout: Option<RomImageLayout>, t1: Table, cows: seq<string>)
    requires AfterLayout(t0, t1, layout, suffix, images) && AreStaleCows(t0, cows)
    ensures SuperAccepts(geo, t0, suffix, images, layout) <==> Accepts(geo, t1, images, cows)
  {
    if SuperAccepts(geo, t0, suffix, images, layout) {
      var t2, cows' :|
        AfterLayout(t0, t2, layout, suffix, images) && AreStaleCows(t0, cows') && Accepts(geo, t2, images, cows');
      AfterLayoutIsUnique(t0, t1, t2, layout, suffix, images);
      forall n ensures n in cows' <==> n in cows {
        assert n in cows <==> CowOk(t0.parts, n);
      }
      AcceptsAnyCowOrder(geo, t1, images, cows', cows);
    }
  }

  lemma {:induction false} ExportableIff(geo: Geometry, t1: Table, t2: Table, images: seq<LogicalImageSize>,
                                         cows: seq<string>)
    requires geo.blockBytes > 0 && Planned(t1, t2, Wanted(geo, images), cows)
    ensures WithinLimits(geo, t2) <==> FinalWithinLimits(geo, t1, Wanted(geo, images), cows)
  {
    PlannedShapes(t1, t2, Wanted(geo, images), cows);
  }

  // ----- which images change size -----

  /** Names of the images whose current size differs, in order. */
  function Changed(geo: Geometry, parts: map<string, Partition>, images: seq<LogicalImageSize>): seq<string> {
    if |images| == 0 then [] else
      var last := images[|images| - 1];
      Changed(geo, parts, images[..|images| - 1]) +
      if last.name in parts && SizeOf(geo, parts[last.name]) != last.bytes then [last.name] else []
  }

  lemma {:induction false} ChangedIff(geo: Geometry, parts: map<string, Partition>, images: seq<LogicalImageSize>,
                                      n: string)
    ensures n in Changed(geo, parts, images) <==>
      exists i :: 0 <= i < |images| && images[i].name == n && n in parts && SizeOf(geo, parts[n]) != images[i].bytes
  {
    if |images| > 0 {
      var init := images[..|images| - 1];
      ChangedIff(geo, parts, init, n);
      if i :| 0 <= i < |init| && init[i].name == n && n in parts && SizeOf(geo, parts[n]) != init[i].bytes {
        assert images[i] == init[i];
      }
      if i :| 0 <= i < |images| && images[i].name == n && n in parts && SizeOf(geo, parts[n]) != images[i].bytes {
        assert i < |init| ==> init[i] == images[i];
      }
    }
  }

  lemma {:induction false} OnlyNamedChange(geo: Geometry, t: Table, images: seq<LogicalImageSize>, changed: seq<string>)
    requires forall i :: 0 <= i < |images| ==> images[i].name in t.parts
    requires changed == Changed(geo, t.parts, images)
    ensures forall n :: n in changed ==> Named(images, n)
  {
    forall n | n in changed ensures Named(images, n) {
      ChangedIff(geo, t.parts, images, n);
    }
  }

  // ----- what a plan guarantees to the commit -----

  ghost predicate HoldsImages(geo: Geometry, t: Table, images: seq<LogicalImageSize>)
    requires geo.blockBytes > 0
  {
    forall i :: 0 <= i < |images| ==>
      images[i].name in t.parts && |t.parts[images[i].name].extents| == BlocksFor(geo, images[i].bytes)
  }

  /** Partitions that the plan does not release keep their blocks. */
  ghost predicate KeepsOthers(t0: Table, t': Table, changed: seq<string>, layoutMappings: seq<string>) {
    forall n :: n in t'.parts && n !in layoutMappings && n !in changed ==>
      n in t0.parts && t'.parts[n].extents == t0.parts[n].extents
  }

  /** Outside `layoutMappings`, `t1` has only partitions of `t0`, unchanged. */
  ghost predicate SameOutside(t0: Table, t1: Table, layoutMappings: seq<string>) {
    forall n :: n in t1.parts && n !in layoutMappings ==> n in t0.parts && t1.parts[n] == t0.parts[n]
  }

  ghost predicate AllListed(images: seq<LogicalImageSize>, layoutMappings: seq<string>) {
    forall n :: Named(images, n) ==> n in layoutMappings
  }

  ghost predicate CowsGone(t: Table, cows: seq<string>) {
    forall n :: n in cows ==> n !in t.parts
  }

  lemma {:induction false} KeepsOthersSince(t0: Table, t1: Table, t2: Table, changed: seq<string>,
                                            layoutMappings: seq<string>)
    requires SameOutside(t0, t1, layoutMappings) && KeepsOthers(t1, t2, changed, [])
    ensures KeepsOthers(t0, t2, changed, layoutMappings)
  {
  }

  lemma {:induction false} PlanHoldsImages(geo: Geometry, t1: Table, t2: Table, images: seq<LogicalImageSize>,
                                           cows: seq<string>)
    requires geo.blockBytes > 0 && ImagesOk(t1.parts, images) && CowsOk(t1.parts, images, cows)
    requires Planned(t1, t2, Wanted(geo, images), cows)
    ensures HoldsImages(geo, t2, images)
  {
    forall i | 0 <= i < |images|
      ensures images[i].name in t2.parts && |t2.parts[images[i].name].extents| == BlocksFor(geo, images[i].bytes)
    {
      WantedAt(geo, images, i);
      assert Named(images, images[i].name);
      assert images[i].name in t2.parts;
      assert PlannedPart(t1.parts[images[i].name], t2.parts[images[i].name], Wanted(geo, images), images[i].name);
    }
  }

  /** Only a changed image loses or gains blocks in the resizing plan. */
  lemma {:induction false} PlanKeepsUnchanged(geo: Geometry, t1: Table, t2: Table, images: seq<LogicalImageSize>,
                                              cows: seq<string>, n: string)
    requires geo.blockBytes > 0 && ImagesOk(t1.parts, images)
    requires Planned(t1, t2, Wanted(geo, images), cows)
    requires n in t2.parts && n !in Changed(geo, t1.parts, images)
    ensures n in t1.parts && t2.parts[n].extents == t1.parts[n].extents
  {
    assert PlannedPart(t1.parts[n], t2.parts[n], Wanted(geo, images), n);
    UnchangedIsWanted(geo, t1, images, n);
    assert t1.parts[n].extents[..|t1.parts[n].extents|] == t1.parts[n].extents;
  }

  /** An image that does not change size wants the blocks it has. */
  lemma {:induction false} UnchangedIsWanted(geo: Geometry, t: Table, images: seq<LogicalImageSize>, n: string)
    requires geo.blockBytes > 0 && ImagesOk(t.parts, images) && n !in Changed(geo, t.parts, images)
    ensures n in Wanted(geo, images) ==> n in t.parts && Wanted(geo, images)[n] == |t.parts[n].extents|
  {
    WantedKeys(geo, images, n);
    ChangedIff(geo, t.parts, images, n);
    if n in Wanted(geo, images) {
      var i :| 0 <= i < |images| && images[i].name == n;
      WantedAt(geo, images, i);
      BlocksForCompare(geo, images[i].bytes, |t.parts[n].extents|);
    }
  }

  lemma {:induction false} PlanKeepsOthers(geo: Geometry, t1: Table, t2: Table, images: seq<LogicalImageSize>,
                                           cows: seq<string>, changed: seq<string>)
    requires geo.blockBytes > 0 && ImagesOk(t1.parts, images)
    requires Planned(t1, t2, Wanted(geo, images), cows) && changed == Changed(geo, t1.parts, images)
    ensures KeepsOthers(t1, t2, changed, [])
  {
    forall n | n in t2.parts && n !in changed ensures n in t1.parts && t2.parts[n].extents == t1.parts[n].extents {
      PlanKeepsUnchanged(geo, t1, t2, images, cows, n);
    }
  }

  /** When nothing changes size and there is no stale COW, the table is its own plan. */
  lemma {:induction false} NothingToCommit(geo: Geometry, t: Table, suffix: string, images: seq<LogicalImageSize>)
    requires SuperAccepts(geo, t, suffix, images, None) && AreStaleCows(t, []) && Changed(geo, t.parts, images) == []
    ensures CommittedTable(geo, t, t, suffix, images, None)
    ensures geo.blockBytes > 0 && HoldsImages(geo, t, images)
  {
    SuperAcceptsIff(geo, t, suffix, images, None, t, []);
    var want := Wanted(geo, images);
    forall n | n in t.parts ensures PlannedPart(t.parts[n], t.parts[n], want, n) {
      UnchangedIsWanted(geo, t, images, n);
      assert t.parts[n].extents[..|t.parts[n].extents|] == t.parts[n].extents;
    }
    assert Planned(t, t, want, []);
    assert PlannedFrom(geo, t, t, suffix, images, None, t, []);
    PlanHoldsImages(geo, t, t, images, []);
  }

  lemma {:induction false} RomKeepsOthers(t: Table, t1: Table, layout: RomImageLayout, suffix: string,
                                          images: seq<LogicalImageSize>, affected: seq<string>)
    requires RomRequestOk(layout, suffix, images) && RomPlanned(t, t1, layout, suffix)
    requires forall n :: n in affected <==> LayoutLists(t, suffix, images, n)
    ensures SameOutside(t, t1, affected) && AllListed(images, affected)
    ensures forall i :: 0 <= i < |images| ==> images[i].name in t1.parts
  {
    forall n | n in t1.parts && n !in affected ensures n in t.parts && t1.parts[n] == t.parts[n] {
      assert RomPart(t, t1.parts[n], Desired(layout.partitions, suffix), suffix, n);
    }
    forall i | 0 <= i < |images| ensures images[i].name in t1.parts {
      assert images[i].name in Selected(images);
    }
    forall n | Named(images, n) ensures n in Selected(images) {
    }
  }

  lemma {:induction false} RemapIsNamed(geo: Geometry, t: Table, images: seq<LogicalImageSize>,
                                        layout: Option<RomImageLayout>, changed: seq<string>, remap: seq<string>)
    requires geo.blockBytes > 0 && HoldsImages(geo, t, images) && forall n :: n in changed ==> Named(images, n)
    requires remap == if layout.Some? then ImageNames(images) else changed
    ensures forall n :: n in remap ==> Named(images, n) && n in t.parts
  {
    forall n | n in remap ensures Named(images, n) && n in t.parts {
      if layout.Some? {
        var i :| 0 <= i < |remap| && remap[i] == n;
        assert images[i].name == n;
      }
      var k :| 0 <= k < |images| && images[k].name == n;
    }
  }

  // ----- what is listed before the request is known to fit -----

  /** Mappings listed because of a package layout. */
  predicate LayoutLists(t0: Table, suffix: string, images: seq<LogicalImageSize>, n: string) {
    (n in t0.parts && ProperSuffix(n, suffix)) || n in Selected(images)
  }

  /** Mappings listed without a layout: "/logical/" targets that change size. */
  predicate ChangeLists(suffix: string, targets: seq<Target>, changed: seq<string>, n: string) {
    exists i :: 0 <= i < |targets| && targets[i].Logical? && targets[i].bare + suffix == n && n in changed
  }

  /** The names planning lists for the rollback to unmap. */
  predicate PlanLists(geo: Geometry, t0: Table, suffix: string, targets: seq<Target>, images: seq<LogicalImageSize>,
                      layout: Option<RomImageLayout>, n: string)
  {
    if layout.Some? then RomRequestOk(layout.value, suffix, images) && LayoutLists(t0, suffix, images, n)
    else ChangeLists(suffix, targets, Changed(geo, t0.parts, images), n)
  }

  ghost predicate ListingIs(listed: seq<string>, geo: Geometry, t0: Table, suffix: string, targets: seq<Target>,
                            images: seq<LogicalImageSize>, layout: Option<RomImageLayout>)
  {
    forall n :: n in listed <==> PlanLists(geo, t0, suffix, targets, images, layout, n)
  }

  /** The same of a whole request: it is listed once the targets are found valid. */
  predicate RequestLists(geo: Geometry, t0: Table, suffix: string, request: Request, n: string) {
    match request
    case Request(targets, bytes, layout) =>
      && 0 < |targets| == |bytes| && TargetsOk(t0, suffix, targets, bytes, layout.Some?)
      && var images := ImagesOf(t0, suffix, targets, bytes);
         images != [] && PlanLists(geo, t0, suffix, targets, images, layout, n)
  }

  /** The devices a refused plan costs: those of a request that is listed and then does not fit. */
  ghost predicate RefusalLoses(geo: Geometry, t0: Table, suffix: string, request: Request, n: string) {
    RequestLists(geo, t0, suffix, request, n) && !Preparable(geo, t0, suffix, request)
  }

  /** A listed request is lost exactly when Super does not accept its images. */
  lemma {:induction false} RefusalIsNotFitting(geo: Geometry, t0: Table, suffix: string, targets: seq<Target>,
                                               bytes: seq<nat>, layout: Option<RomImageLayout>, n: string)
    ensures RefusalLoses(geo, t0, suffix, Request(targets, bytes, layout), n) <==>
      && 0 < |targets| == |bytes| && TargetsOk(t0, suffix, targets, bytes, layout.Some?)
      && var images := ImagesOf(t0, suffix, targets, bytes);
      && images != [] && PlanLists(geo, t0, suffix, targets, images, layout, n)
      && !SuperAccepts(geo, t0, suffix, images, layout)
  {
  }

  // ----- what preparation and rollback leave, in terms of the request -----

  /** A target in Super has an entry of its image's size, and a device wherever preparation had to make one. */
  ghost predicate TargetReady(geo: Geometry, t0: Table, suffix: string, target: Target, bytes: nat,
                              layout: Option<RomImageLayout>, disk: Table, mapped: Mappings)
    requires geo.blockBytes > 0 && InSuper(target)
  {
    var n := SuperName(t0, suffix, target);
    && n in disk.parts && |disk.parts[n].extents| == BlocksFor(geo, bytes)
    && (target.Logical? || layout.Some? || (n in t0.parts && SizeOf(geo, t0.parts[n]) != bytes) ==> n in mapped)
  }

  /** Every target in Super is ready, and every device shows the table on disk. */
  ghost predicate Ready(geo: Geometry, t0: Table, suffix: string, request: Request, disk: Table, mapped: Mappings) {
    match request
    case Request(targets, bytes, layout) =>
      && |targets| == |bytes| && geo.blockBytes > 0 && Coherent(disk, mapped)
      && forall i :: 0 <= i < |targets| && InSuper(targets[i]) ==>
        TargetReady(geo, t0, suffix, targets[i], bytes[i], layout, disk, mapped)
  }

  /** The table on disk is the plan of the request, or still the checkpoint when no target is in Super. */
  ghost predicate OnDisk(geo: Geometry, t0: Table, suffix: string, request: Request, disk: Table) {
    match request
    case Request(targets, bytes, layout) =>
      && |targets| == |bytes|
      && var images := ImagesOf(t0, suffix, targets, bytes);
         if images == [] then disk == t0 else CommittedTable(geo, t0, disk, suffix, images, layout)
  }

  /** Only names of the request are listed. */
  ghost predicate ListsOnly(listed: seq<string>, geo: Geometry, t0: Table, suffix: string, request: Request) {
    match request
    case Request(_, _, _) => forall n :: n in listed ==> RequestLists(geo, t0, suffix, request, n)
  }

  /** What a stopped planning leaves: the list, and nothing else touched. */
  ghost predicate OnlyListed(geo: Geometry, t0: Table, m0: Mappings, suffix: string, targets: seq<Target>,
                             images: seq<LogicalImageSize>, layout: Option<RomImageLayout>, mapped: Mappings,
                             tr: Trackers)
  {
    && mapped == m0 && tr == NO_TRACKERS.(layoutMappings := tr.layoutMappings)
    && ListingIs(tr.layoutMappings, geo, t0, suffix, targets, images, layout)
  }

  /**
    What preparation whose calls all work leaves to a rollback: everything done, or nothing but the list of layout
    mappings, which names the devices of the whole request.
   */
  ghost predicate CleanStop(geo: Geometry, t0: Table, m0: Mappings, suffix: string, request: Request,
                            mapped: Mappings, tr: Trackers)
  {
    match tr
    case Trackers(_, metadataChanged, _, listed, _) =>
      if Preparable(geo, t0, suffix, request) then metadataChanged || listed == []
      else
        && mapped == m0 && tr == NO_TRACKERS.(layoutMappings := listed)
        && forall n :: n in listed <==> RequestLists(geo, t0, suffix, request, n)
  }

  /**
    What a failed batch leaves, in terms of the state before it and of the request: the same table, no device with
    other blocks, every released device back, and no device lost that the request does not list.
   */
  ghost predicate RolledBack(geo: Geometry, t0: Table, m0: Mappings, suffix: string, request: Request, disk: Table,
                             mapped: Mappings, released: set<string>)
  {
    match request
    case Request(_, _, _) =>
      && disk == t0 && KnownBlocks(t0, m0, mapped) && GivenBack(t0, m0, mapped, released)
      && forall n :: n in m0 && !Untouched(m0, mapped, n) ==> RequestLists(geo, t0, suffix, request, n)
  }

  /** Of the devices with a table entry, exactly those of a request that is listed and then refused are lost. */
  ghost predicate LosesExactly(geo: Geometry, t0: Table, m0: Mappings, suffix: string, request: Request,
                               mapped: Mappings)
  {
    match request
    case Request(_, _, _) =>
      forall n :: n in m0 && n in t0.parts ==>
        (!Untouched(m0, mapped, n) <==> RefusalLoses(geo, t0, suffix, request, n))
  }

  /** What planning lists is what the request lists. */
  lemma {:induction false} ListingOfRequest(geo: Geometry, t0: Table, suffix: string, request: Request,
                                            images: seq<LogicalImageSize>, listed: seq<string>)
    requires 0 < |request.targets| == |request.bytes|
    requires TargetsOk(t0, suffix, request.targets, request.bytes, request.layout.Some?)
    requires images == ImagesOf(t0, suffix, request.targets, request.bytes) && images != []
    requires ListingIs(listed, geo, t0, suffix, request.targets, images, request.layout)
    ensures forall n :: n in listed <==> RequestLists(geo, t0, suffix, request, n)
  {
    forall n ensures n in listed <==> RequestLists(geo, t0, suffix, request, n) {
      assert n in listed <==> PlanLists(geo, t0, suffix, request.targets, images, request.layout, n);
    }
  }

  // ----- requests that lose a device -----

  lemma {:induction false} TotalHoldsPart(shapes: map<string, Shape>, n: string)
    requires n in shapes
    ensures Total(shapes, None) >= shapes[n].blocks
  {
    TotalRemove(shapes, None, n);
  }

  /** An image larger than the whole of Super is never accepted. */
  lemma {:induction false} TooLargeIsRefused(geo: Geometry, t0: Table, suffix: string, images: seq<LogicalImageSize>,
                                             layout: Option<RomImageLayout>, i: nat)
    requires geo.blockBytes > 0 && i < |images| && BlocksFor(geo, images[i].bytes) > geo.blocks
    ensures !SuperAccepts(geo, t0, suffix, images, layout)
  {
    if t1, cows :|
      AfterLayout(t0, t1, layout, suffix, images) && AreStaleCows(t0, cows) && Accepts(geo, t1, images, cows)
    {
      WantedAt(geo, images, i);
      assert Named(images, images[i].name);
      TotalHoldsPart(FinalShapes(t1.parts, Wanted(geo, images), cows), images[i].name);
    }
  }

  const SMALL_SUPER := Geometry(4096, 10)
  const SMALL_TABLE := Table(map["main_a" := 0], map["system_a" := Partition("main_a", 0, [7])])
  const SMALL_LAYOUT :=
    RomImageLayout([RomImageGroup("main", 4096)], [RomImagePartition("system", "main", 0)])

  /**
    A well-formed table, its one device, and a valid request for an image of 100 blocks on a Super of 10: planning
    lists the device and then refuses the image, with a package layout and without one.
   */
  lemma {:induction false} PlanningFailureLosesMapping(layout: Option<RomImageLayout>)
    requires layout == None || layout == Some(SMALL_LAYOUT)
    ensures WellFormed(SMALL_SUPER, SMALL_TABLE) && Coherent(SMALL_TABLE, map["system_a" := [7]])
    ensures "system_a" in SMALL_TABLE.parts && HasLogical([Logical("system")])
    ensures RefusalLoses(SMALL_SUPER, SMALL_TABLE, "_a", Request([Logical("system")], [409600], layout), "system_a")
  {
    SmallTableIsWellFormed();
    SmallRequestIsListed(layout);
    SmallRequestIsRefused(layout);
    assert InSuper([Logical("system")][0]);
  }

  lemma {:induction false} SmallRequestIsRefused(layout: Option<RomImageLayout>)
    ensures !SuperAccepts(SMALL_SUPER, SMALL_TABLE, "_a", [LogicalImageSize("system_a", 409600)], layout)
  {
    assert BlocksFor(SMALL_SUPER, 409600) == 100;
    TooLargeIsRefused(SMALL_SUPER, SMALL_TABLE, "_a", [LogicalImageSize("system_a", 409600)], layout, 0);
  }

  lemma {:induction false} SmallTableIsWellFormed()
    ensures WellFormed(SMALL_SUPER, SMALL_TABLE)
  {
    var shapes := Shapes(SMALL_TABLE.parts);
    TotalRemove(shapes, None, "system_a");
    assert shapes - {"system_a"} == map[];
  }

  lemma {:induction false} SmallImages()
    ensures "system" + "_a" == "system_a"
    ensures ImagesOf(SMALL_TABLE, "_a", [Logical("system")], [409600]) == [LogicalImageSize("system_a", 409600)]
  {
    assert "system" + "_a" == "system_a";
    assert |[Logical("system")][..0]| == 0;
    assert ImageOf(SMALL_TABLE, "_a", Logical("system"), 409600) == [LogicalImageSize("system_a", 409600)];
  }

  lemma {:induction false} SmallRequestIsListed(layout: Option<RomImageLayout>)
    requires layout == None || layout == Some(SMALL_LAYOUT)
    ensures ImagesOf(SMALL_TABLE, "_a", [Logical("system")], [409600]) == [LogicalImageSize("system_a", 409600)]
    ensures RequestLists(SMALL_SUPER, SMALL_TABLE, "_a", Request([Logical("system")], [409600], layout), "system_a")
  {
    SmallImages();
    var images := [LogicalImageSize("system_a", 409600)];
    assert TargetOk(SMALL_TABLE, "_a", Logical("system"), 409600, layout.Some?);
    if layout.Some? {
      SmallLayoutIsOk();
      assert images[0].name in Selected(images);
    } else {
      ChangedIff(SMALL_SUPER, SMALL_TABLE.parts, images, "system_a");
      assert images[0].name == "system_a" && SizeOf(SMALL_SUPER, SMALL_TABLE.parts["system_a"]) == 4096;
      assert [Logical("system")][0].bare + "_a" == "system_a";
    }
  }

  lemma {:induction false} SmallLayoutIsOk()
    ensures RomRequestOk(SMALL_LAYOUT, "_a", [LogicalImageSize("system_a", 409600)])
  {
    var images := [LogicalImageSize("system_a", 409600)];
    var g, p := SMALL_LAYOUT.groups, SMALL_LAYOUT.partitions;
    assert "main" + "_a" == "main_a" && "system" + "_a" == "system_a";
    assert |g[..0]| == 0 && |p[..0]| == 0;
    assert GroupLimits(g, "_a") == map["main_a" := 4096];
    assert Desired(p, "_a") == map["system_a" := p[0]];
    assert images[0].name in Selected(images);
    assert Selected(images) == {"system_a"};
  }
}
