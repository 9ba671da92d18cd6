/**
  Planning the Super layout of an image flash: resizing every selected logical partition
  after dropping stale snapshot COWs.
 */
module SuperLayout {
  import opened Wrappers
  import opened SuperTable

  datatype LogicalImageSize = LogicalImageSize(name: string, bytes: nat)

  // ----- what a request asks for -----

  /** Requested blocks by partition name. */
  function Wanted(geo: Geometry, images: seq<LogicalImageSize>): map<string, nat>
    requires geo.blockBytes > 0
  {
    if |images| == 0 then map[] else
      var last := images[|images| - 1];
      Wanted(geo, images[..|images| - 1])[last.name := BlocksFor(geo, last.bytes)]
  }

  predicate DistinctNames(images: seq<LogicalImageSize>) {
    forall i, j :: 0 <= i < j < |images| ==> images[i].name != images[j].name
  }

  ghost predicate Named(images: seq<LogicalImageSize>, name: string) {
    exists i :: 0 <= i < |images| && images[i].name == name
  }

  lemma {:induction false} WantedKeys(geo: Geometry, images: seq<LogicalImageSize>, name: string)
    requires geo.blockBytes > 0
    ensures name in Wanted(geo, images) <==> Named(images, name)
  {
    if |images| > 0 {
      var init := images[..|images| - 1];
      WantedKeys(geo, init, name);
      if Named(images, name) && images[|images| - 1].name != name {
        var i :| 0 <= i < |images| && images[i].name == name;
        assert init[i].name == name;
      }
      if Named(init, name) {
        var i :| 0 <= i < |init| && init[i].name == name;
        assert images[i].name == name;
      }
    }
  }

  lemma {:induction false} WantedAt(geo: Geometry, images: seq<LogicalImageSize>, i: nat)
    requires geo.blockBytes > 0 && i < |images| && DistinctNames(images)
    ensures images[i].name in Wanted(geo, images)
    ensures Wanted(geo, images)[images[i].name] == BlocksFor(geo, images[i].bytes)
  {
    if i < |images| - 1 {
      WantedAt(geo, images[..|images| - 1], i);
    }
  }

  lemma {:induction false} WantedNext(geo: Geometry, images: seq<LogicalImageSize>, i: nat)
    requires geo.blockBytes > 0 && i < |images|
    ensures Wanted(geo, images[..i + 1]) == Wanted(geo, images[..i])[images[i].name := BlocksFor(geo, images[i].bytes)]
    ensures DistinctNames(images) ==> images[i].name !in Wanted(geo, images[..i])
  {
    assert images[..i + 1][..i] == images[..i];
    WantedKeys(geo, images[..i], images[i].name);
  }

  predicate ImagesOk(parts: map<string, Partition>, images: seq<LogicalImageSize>) {
    && DistinctNames(images)
    && forall i :: 0 <= i < |images| ==>
      images[i].bytes > 0 && images[i].bytes % 512 == 0 && images[i].name in parts
  }

  predicate CowOk(parts: map<string, Partition>, name: string) {
    name in parts && parts[name].group == "cow" && ProperSuffix(name, "-cow")
  }

  ghost predicate CowsOk(parts: map<string, Partition>, images: seq<LogicalImageSize>, cows: seq<string>) {
    forall i :: 0 <= i < |cows| ==> CowOk(parts, cows[i]) && !Named(images, cows[i])
  }

  /** The shape of the table once every wish is granted. */
  ghost function FinalShapes(parts: map<string, Partition>, want: map<string, nat>,
                             cows: seq<string>): map<string, Shape>
  {
    map n | n in parts && n !in cows :: Shape(parts[n].group, if n in want then want[n] else |parts[n].extents|)
  }

  ghost predicate Grows(parts: map<string, Partition>, want: map<string, nat>, name: string) {
    name in want && name in parts && want[name] > |parts[name].extents|
  }

  /** The final sizes fit Super, and every group with a growing member fits its limit. */
  ghost predicate WantsFit(geo: Geometry, t: Table, want: map<string, nat>, cows: seq<string>)
    requires geo.blockBytes > 0 && GroupsExist(t)
  {
    var final := FinalShapes(t.parts, want, cows);
    && Total(final, None) <= geo.blocks
    && forall n :: Grows(t.parts, want, n) ==>
      GroupAllows(geo, t.groups[t.parts[n].group], Total(final, Some(t.parts[n].group)))
  }

  /** `t'` is `t` without the COWs and with each wanted partition at its new size. */
  ghost predicate Planned(t: Table, t': Table, want: map<string, nat>, cows: seq<string>) {
    && t'.groups == t.groups
    && (forall n :: n in t'.parts <==> n in t.parts && n !in cows)
    && forall n :: n in t'.parts ==> PlannedPart(t.parts[n], t'.parts[n], want, n)
  }

  ghost predicate PlannedPart(p: Partition, p': Partition, want: map<string, nat>, n: string) {
    && p' == p.(extents := p'.extents)
    && if n in want then Stretched(p.extents, p'.extents, want[n]) else p'.extents == p.extents
  }

  lemma {:induction false} PlannedShapes(t: Table, t': Table, want: map<string, nat>, cows: seq<string>)
    requires Planned(t, t', want, cows)
    ensures Shapes(t'.parts) == FinalShapes(t.parts, want, cows)
  {
    forall n | n in t'.parts ensures Shapes(t'.parts)[n] == FinalShapes(t.parts, want, cows)[n] {
      assert PlannedPart(t.parts[n], t'.parts[n], want, n);
    }
  }

  // ----- the shrinking pass -----

  function CutPart(p: Partition, want: map<string, nat>, n: string): Partition {
    if n in want && want[n] < |p.extents| then p.(extents := p.extents[..want[n]]) else p
  }

  /** The partitions after the shrinking pass over `want`. */
  function Shrunk(parts: map<string, Partition>, want: map<string, nat>): map<string, Partition> {
    map n | n in parts :: CutPart(parts[n], want, n)
  }

  lemma {:induction false} ShrunkNext(parts: map<string, Partition>, want: map<string, nat>, name: string, blocks: nat)
    requires name in parts && name !in want
    ensures Shrunk(parts, want)[name] == parts[name]
    ensures blocks <= |parts[name].extents| ==>
      (Shrunk(parts, want[name := blocks]) ==
       Shrunk(parts, want)[name := parts[name].(extents := parts[name].extents[..blocks])])
    ensures blocks >= |parts[name].extents| ==> Shrunk(parts, want[name := blocks]) == Shrunk(parts, want)
  {
    assert parts[name].extents[..|parts[name].extents|] == parts[name].extents;
  }

  method ShrinkPass(b: MetadataBuilder, images: seq<LogicalImageSize>) returns (ok: bool)
    requires b.Valid() && ImagesOk(b.table.parts, images)
    modifies b`table
    ensures b.Valid() && ok
    ensures b.table == old(b.table).(parts := Shrunk(old(b.table).parts, Wanted(b.geometry, images)))
  {
    ghost var t0 := b.table;
    assert t0.parts == Shrunk(t0.parts, map[]);
    for i := 0 to |images|
      invariant b.Valid()
      invariant b.table == t0.(parts := Shrunk(t0.parts, Wanted(b.geometry, images[..i])))
    {
      var image := images[i];
      WantedNext(b.geometry, images, i);
      ShrunkNext(t0.parts, Wanted(b.geometry, images[..i]), image.name, BlocksFor(b.geometry, image.bytes));
      var p := b.table.parts[image.name];
      BlocksForCompare(b.geometry, image.bytes, |p.extents|);
      if SizeOf(b.geometry, p) != image.bytes && image.bytes < SizeOf(b.geometry, p) {
        var resized := b.ResizePartition(image.name, image.bytes);
        if !resized { return false; }
      }
    }
    assert images[..|images|] == images;
    ok := true;
  }

  // ----- the growing pass -----

  /** Mid-way through growing, no partition is beyond its final size. */
  ghost predicate Below(a: map<string, Shape>, b: map<string, Shape>) {
    && a.Keys == b.Keys
    && forall n :: n in a ==> a[n].group == b[n].group && a[n].blocks <= b[n].blocks
  }

  lemma {:induction false} BelowTotal(a: map<string, Shape>, b: map<string, Shape>, group: Option<string>)
    requires Below(a, b)
    ensures Total(a, group) <= Total(b, group)
  {
    TotalMonotone(a, b, group);
  }

  lemma {:induction false} GrowthBelow(shapes: map<string, Shape>, final: map<string, Shape>, name: string,
                                       group: Option<string>)
    requires Below(shapes, final) && name in shapes
    ensures Total(shapes, group) + Weight(final[name], group) - Weight(shapes[name], group) <= Total(final, group)
  {
    var next := shapes[name := final[name]];
    TotalUpdate(shapes, group, name, final[name]);
    BelowTotal(next, final, group);
  }

  /** When the final sizes fit, a growth on the way to them is never refused. */
  lemma {:induction false} GrowthMustFit(geo: Geometry, t0: Table, t: Table, want: map<string, nat>, name: string)
    requires geo.blockBytes > 0 && GroupsExist(t0) && GroupsExist(t) && t.groups == t0.groups
    requires Below(Shapes(t.parts), FinalShapes(t0.parts, want, []))
    requires Grows(t0.parts, want, name) && name in t.parts && t.parts[name] == t0.parts[name]
    requires WantsFit(geo, t0, want, [])
    ensures ResizeFits(geo, t, name, want[name])
  {
    var final := FinalShapes(t0.parts, want, []);
    GrowthBelow(Shapes(t.parts), final, name, None);
    GrowthBelow(Shapes(t.parts), final, name, Some(t.parts[name].group));
  }

  /** Every group already grown is still within its limit. */
  ghost predicate GrownAllowed(geo: Geometry, t0: Table, want: map<string, nat>, shapes: map<string, Shape>)
    requires geo.blockBytes > 0 && GroupsExist(t0)
  {
    forall n :: Grows(t0.parts, want, n) ==>
      GroupAllows(geo, t0.groups[t0.parts[n].group], Total(shapes, Some(t0.parts[n].group)))
  }

  /** The invariant of the growing pass: `t` has grown exactly the partitions in `done`. */
  ghost predicate Growing(geo: Geometry, t0: Table, t: Table, done: map<string, nat>, want: map<string, nat>)
    requires geo.blockBytes > 0 && GroupsExist(t0)
  {
    && Planned(t0, t, done, [])
    && Below(Shapes(t.parts), FinalShapes(t0.parts, want, []))
    && GrownAllowed(geo, t0, done, Shapes(t.parts))
  }

  lemma {:induction false} PlannedStep(t0: Table, t: Table, t': Table, done: map<string, nat>, name: string,
                                       blocks: nat)
    requires Planned(t0, t, done, []) && name in t.parts && name !in done
    requires Resized(t, t', name, blocks)
    ensures Planned(t0, t', done[name := blocks], [])
  {
    assert PlannedPart(t0.parts[name], t.parts[name], done, name);
    forall n | n in t'.parts ensures PlannedPart(t0.parts[n], t'.parts[n], done[name := blocks], n) {
      assert PlannedPart(t0.parts[n], t.parts[n], done, n);
    }
  }

  lemma {:induction false} AllowedStep(geo: Geometry, t0: Table, t: Table, done: map<string, nat>, name: string,
                                       blocks: nat)
    requires geo.blockBytes > 0 && GroupsExist(t0) && GroupsExist(t) && t.groups == t0.groups
    requires GrownAllowed(geo, t0, done, Shapes(t.parts))
    requires name in t0.parts && name in t.parts && t.parts[name] == t0.parts[name] && name !in done
    requires blocks > |t.parts[name].extents| && ResizeFits(geo, t, name, blocks)
    ensures GrownAllowed(geo, t0, done[name := blocks], Shapes(t.parts)[name := Shape(t.parts[name].group, blocks)])
  {
    var p := t.parts[name];
    forall n | Grows(t0.parts, done[name := blocks], n)
      ensures GroupAllows(geo, t0.groups[t0.parts[n].group],
                          Total(Shapes(t.parts)[name := Shape(p.group, blocks)], Some(t0.parts[n].group)))
    {
      TotalUpdate(Shapes(t.parts), Some(t0.parts[n].group), name, Shape(p.group, blocks));
      assert n != name ==> Grows(t0.parts, done, n);
    }
  }

  lemma {:induction false} GrowingStep(geo: Geometry, t0: Table, t: Table, t': Table, done: map<string, nat>,
                                       want: map<string, nat>, name: string)
    requires geo.blockBytes > 0 && GroupsExist(t0) && GroupsExist(t)
    requires Growing(geo, t0, t, done, want)
    requires name in t0.parts && name in want && name !in done && want[name] > |t0.parts[name].extents|
    requires name in t.parts && ResizeFits(geo, t, name, want[name]) && Resized(t, t', name, want[name])
    ensures Growing(geo, t0, t', done[name := want[name]], want)
  {
    assert PlannedPart(t0.parts[name], t.parts[name], done, name);
    PlannedStep(t0, t, t', done, name, want[name]);
    ShapesUpdate(t.parts, name, t'.parts[name]);
    AllowedStep(geo, t0, t, done, name, want[name]);
  }

  /** A wish that the current size already meets needs no resize. */
  lemma {:induction false} GrowingSkip(geo: Geometry, t0: Table, t: Table, done: map<string, nat>,
                                       want: map<string, nat>, name: string)
    requires geo.blockBytes > 0 && GroupsExist(t0)
    requires Growing(geo, t0, t, done, want)
    requires name in t0.parts && name in want && name !in done && want[name] == |t0.parts[name].extents|
    ensures Growing(geo, t0, t, done[name := want[name]], want)
  {
    var done' := done[name := want[name]];
    forall n | n in t.parts ensures PlannedPart(t0.parts[n], t.parts[n], done', n) {
      assert PlannedPart(t0.parts[n], t.parts[n], done, n);
    }
    forall n | Grows(t0.parts, done', n) ensures Grows(t0.parts, done, n) {
    }
  }

  /** The growing pass after the first `i` images. */
  ghost predicate GrownUpTo(geo: Geometry, t0: Table, t: Table, images: seq<LogicalImageSize>, i: nat) {
    && geo.blockBytes > 0 && GroupsExist(t0) && ImagesOk(t0.parts, images) && i <= |images|
    && Growing(geo, t0, t, Wanted(geo, images[..i]), Wanted(geo, images))
  }

  lemma {:induction false} GrowStart(geo: Geometry, t0: Table, images: seq<LogicalImageSize>)
    requires geo.blockBytes > 0 && GroupsExist(t0) && ImagesOk(t0.parts, images)
    requires forall n :: n in Wanted(geo, images) && n in t0.parts ==> |t0.parts[n].extents| <= Wanted(geo, images)[n]
    ensures GrownUpTo(geo, t0, t0, images, 0)
  {
    assert Wanted(geo, images[..0]) == map[];
    forall n ensures !Grows(t0.parts, map[], n) {
    }
  }

  /** What is known when the pass comes to image `i`. */
  lemma {:induction false} GrowNext(geo: Geometry, t0: Table, t: Table, images: seq<LogicalImageSize>, i: nat)
    requires i < |images| && GrownUpTo(geo, t0, t, images, i)
    ensures var n := images[i].name; var want := Wanted(geo, images);
      && n in t.parts && t.parts[n] == t0.parts[n] && n in want && want[n] == BlocksFor(geo, images[i].bytes)
      && n !in Wanted(geo, images[..i]) && |t.parts[n].extents| <= want[n]
      && Wanted(geo, images[..i + 1]) == Wanted(geo, images[..i])[n := want[n]]
  {
    var n := images[i].name;
    WantedNext(geo, images, i);
    WantedAt(geo, images, i);
    assert n in t0.parts && n in t.parts;
    assert PlannedPart(t0.parts[n], t.parts[n], Wanted(geo, images[..i]), n);
    assert Shapes(t.parts)[n].blocks <= FinalShapes(t0.parts, Wanted(geo, images), [])[n].blocks;
  }

  lemma {:induction false} GrownPlan(geo: Geometry, t0: Table, t: Table, images: seq<LogicalImageSize>)
    requires GrownUpTo(geo, t0, t, images, |images|) && Total(Shapes(t.parts), None) <= geo.blocks
    ensures WantsFit(geo, t0, Wanted(geo, images), []) && Planned(t0, t, Wanted(geo, images), [])
  {
    assert images[..|images|] == images;
    PlannedShapes(t0, t, Wanted(geo, images), []);
  }

  method GrowOne(b: MetadataBuilder, images: seq<LogicalImageSize>, i: nat, ghost t0: Table) returns (ok: bool)
    requires b.Valid() && i < |images| && GrownUpTo(b.geometry, t0, b.table, images, i)
    modifies b`table
    ensures b.Valid()
    ensures ok ==> GrownUpTo(b.geometry, t0, b.table, images, i + 1)
    ensures !ok ==> !WantsFit(b.geometry, t0, Wanted(b.geometry, images), [])
  {
    ghost var t, geo := b.table, b.geometry;
    ghost var done, want := Wanted(geo, images[..i]), Wanted(geo, images);
    var image := images[i];
    GrowNext(geo, t0, t, images, i);
    var p := b.table.parts[image.name];
    BlocksForCompare(geo, image.bytes, |p.extents|);
    if SizeOf(b.geometry, p) != image.bytes && image.bytes >= SizeOf(b.geometry, p) {
      if WantsFit(geo, t0, want, []) {
        GrowthMustFit(geo, t0, t, want, image.name);
      }
      ok := b.ResizePartition(image.name, image.bytes);
      if ok {
        GrowingStep(geo, t0, t, b.table, done, want, image.name);
      }
    } else {
      GrowingSkip(geo, t0, t, done, want, image.name);
      ok := true;
    }
  }

  method GrowPass(b: MetadataBuilder, images: seq<LogicalImageSize>) returns (ok: bool)
    requires b.Valid() && ImagesOk(b.table.parts, images)
    requires forall n :: n in Wanted(b.geometry, images) && n in b.table.parts ==>
      |b.table.parts[n].extents| <= Wanted(b.geometry, images)[n]
    modifies b`table
    ensures b.Valid()
    ensures ok <==> WantsFit(b.geometry, old(b.table), Wanted(b.geometry, images), [])
    ensures ok ==> Planned(old(b.table), b.table, Wanted(b.geometry, images), [])
  {
    ghost var t0, geo := b.table, b.geometry;
    GrowStart(geo, t0, images);
    for i := 0 to |images|
      invariant b.Valid() && GrownUpTo(geo, t0, b.table, images, i)
    {
      ok := GrowOne(b, images, i, t0);
      if !ok { return; }
    }
    GrownPlan(geo, t0, b.table, images);
    ok := true;
  }

  // ----- PlanImageFlashLayout -----

  function Without(parts: map<string, Partition>, cows: seq<string>): map<string, Partition> {
    map n | n in parts && n !in cows :: parts[n]
  }

  method CheckRequest(parts: map<string, Partition>, images: seq<LogicalImageSize>, cows: seq<string>)
    returns (ok: bool, error: string)
    ensures ok <==> ImagesOk(parts, images) && CowsOk(parts, images, cows)
  {
    ok, error := false, "";
    var names: set<string> := {};
    for i := 0 to |images|
      invariant forall n :: n in names <==> Named(images[..i], n)
      invariant ImagesOk(parts, images[..i])
    {
      var image := images[i];
      if image.bytes == 0 || image.bytes % 512 != 0 || image.name in names || image.name !in parts {
        error := "Invalid or duplicate logical target: " + image.name;
        if image.name in names {
          var k :| 0 <= k < i && images[..i][k].name == image.name;
          assert images[k].name == images[i].name;
        }
        return;
      }
      names := names + {image.name};
      assert images[..i + 1] == images[..i] + [image];
      assert images[..i + 1][i] == image;
      assert forall k :: 0 <= k < i ==> images[..i + 1][k] == images[..i][k];
    }
    assert images[..|images|] == images;
    for i := 0 to |cows|
      invariant CowsOk(parts, images, cows[..i])
    {
      if !CowOk(parts, cows[i]) || cows[i] in names {
        error := "Invalid stale snapshot COW: " + cows[i];
        return;
      }
    }
    ok := true;
  }

  /** `t1` is `t` once the COWs are gone and the shrinks are done. */
  ghost predicate Trimmed(t: Table, t1: Table, want: map<string, nat>, cows: seq<string>) {
    t1 == t.(parts := Shrunk(Without(t.parts, cows), want)) && forall c :: c in cows ==> c !in want
  }

  /** Growing the trimmed table has the goal of the original request. */
  lemma {:induction false} SameGoal(geo: Geometry, t: Table, t1: Table, want: map<string, nat>, cows: seq<string>)
    requires geo.blockBytes > 0 && GroupsExist(t) && GroupsExist(t1) && Trimmed(t, t1, want, cows)
    ensures WantsFit(geo, t1, want, []) <==> WantsFit(geo, t, want, cows)
  {
    assert FinalShapes(t1.parts, want, []) == FinalShapes(t.parts, want, cows);
    forall n ensures Grows(t1.parts, want, n) <==> Grows(t.parts, want, n)
             ensures Grows(t.parts, want, n) ==> t1.parts[n].group == t.parts[n].group
    {
      SameGrowth(t, t1, want, cows, n);
    }
  }

  lemma {:induction false} SameGrowth(t: Table, t1: Table, want: map<string, nat>, cows: seq<string>, n: string)
    requires Trimmed(t, t1, want, cows)
    ensures Grows(t1.parts, want, n) <==> Grows(t.parts, want, n)
    ensures Grows(t.parts, want, n) ==> t1.parts[n].group == t.parts[n].group
  {
  }

  lemma {:induction false} TrimmedIsBelow(t: Table, t1: Table, want: map<string, nat>, cows: seq<string>)
    requires Trimmed(t, t1, want, cows)
    ensures forall n :: n in want && n in t1.parts ==> |t1.parts[n].extents| <= want[n]
  {
  }

  lemma {:induction false} PlannedFromTrimmed(t: Table, t1: Table, t': Table, want: map<string, nat>, cows: seq<string>)
    requires Trimmed(t, t1, want, cows) && Planned(t1, t', want, [])
    ensures Planned(t, t', want, cows)
  {
    forall n | n in t'.parts ensures PlannedPart(t.parts[n], t'.parts[n], want, n) {
      assert PlannedPart(t1.parts[n], t'.parts[n], want, n);
    }
  }

  /** Drops the stale COWs, shrinks every selected partition, then grows the others. */
  method PlanImageFlashLayout(b: MetadataBuilder, images: seq<LogicalImageSize>, cows: seq<string>)
    returns (ok: bool, error: string)
    requires b.Valid()
    modifies b`table
    ensures b.Valid()
    ensures ok <==> Accepted(b.geometry, old(b.table), images, cows)
    ensures ok ==> Planned(old(b.table), b.table, Wanted(b.geometry, images), cows)
  {
    ghost var t := b.table;
    ok, error := CheckRequest(b.table.parts, images, cows);
    if !ok { return; }
    DropCows(b, cows);
    forall c | c in cows ensures c !in Wanted(b.geometry, images) {
      WantedKeys(b.geometry, images, c);
    }
    forall i | 0 <= i < |images| ensures images[i].name in b.table.parts {
      assert Named(images, images[i].name);
    }
    ok := ShrinkPass(b, images);
    ghost var t1, want := b.table, Wanted(b.geometry, images);
    SameGoal(b.geometry, t, t1, want, cows);
    TrimmedIsBelow(t, t1, want, cows);
    ok := GrowPass(b, images);
    if ok {
      PlannedFromTrimmed(t, t1, b.table, want, cows);
    } else {
      error := "Cannot fit the images into their Super groups after selected shrinks and stale-COW cleanup";
    }
  }

  lemma {:induction false} WithoutNext(parts: map<string, Partition>, cows: seq<string>, i: nat)
    requires i < |cows|
    ensures Without(parts, cows[..i]) - {cows[i]} == Without(parts, cows[..i + 1])
  {
    assert cows[..i + 1] == cows[..i] + [cows[i]];
  }

  method DropCows(b: MetadataBuilder, cows: seq<string>)
    requires b.Valid()
    modifies b`table
    ensures b.Valid()
    ensures b.table == old(b.table).(parts := Without(old(b.table).parts, cows))
  {
    ghost var t := b.table;
    assert t.parts == Without(t.parts, cows[..0]);
    for i := 0 to |cows|
      invariant b.Valid()
      invariant b.table == t.(parts := Without(t.parts, cows[..i]))
    {
      b.RemovePartition(cows[i]);
      WithoutNext(t.parts, cows, i);
    }
    assert cows[..|cows|] == cows;
  }

  // ----- consequences of the plan -----

  /** A plan from a table within its limits stays within them, so it can be exported. */
  lemma {:induction false} PlanStaysWithinLimits(geo: Geometry, t: Table, t': Table, want: map<string, nat>,
                                                 cows: seq<string>)
    requires geo.blockBytes > 0 && GroupsExist(t) && WithinLimits(geo, t)
    requires WantsFit(geo, t, want, cows) && Planned(t, t', want, cows)
    ensures WithinLimits(geo, t')
  {
    PlannedShapes(t, t', want, cows);
    var final := Shapes(t'.parts);
    forall g | g in t'.groups ensures GroupAllows(geo, t'.groups[g], Total(final, Some(g))) {
      if n :| Grows(t.parts, want, n) && t.parts[n].group == g {
      } else {
        forall n | n in final ensures Weight(final[n], Some(g)) <= Weight(Shapes(t.parts)[n], Some(g)) {
          assert !(Grows(t.parts, want, n) && t.parts[n].group == g);
        }
        TotalMonotone(final, Shapes(t.parts), Some(g));
      }
    }
  }

  /** What a request wants does not depend on the order of its images, so neither does its acceptance. */
  lemma {:induction false} OrderDoesNotMatter(geo: Geometry, images: seq<LogicalImageSize>,
                                              images': seq<LogicalImageSize>)
    requires geo.blockBytes > 0
    requires multiset(images) == multiset(images') && DistinctNames(images)
    ensures DistinctNames(images') && Wanted(geo, images') == Wanted(geo, images)
  {
    forall x ensures x in images <==> x in images' {
      assert x in multiset(images) <==> x in multiset(images');
    }
    PermutedDistinct(images, images');
    forall n ensures n in Wanted(geo, images) <==> n in Wanted(geo, images')
             ensures n in Wanted(geo, images) ==> Wanted(geo, images)[n] == Wanted(geo, images')[n]
    {
      WantedKeys(geo, images, n);
      WantedKeys(geo, images', n);
      if n in Wanted(geo, images) {
        var i :| 0 <= i < |images| && images[i].name == n;
        assert images[i] in images';
        var k :| 0 <= k < |images'| && images'[k] == images[i];
        WantedAt(geo, images, i);
        WantedAt(geo, images', k);
      } else {
        assert forall k :: 0 <= k < |images'| ==> images'[k] in images;
      }
    }
  }

  /** Every condition of acceptance is the same for both orders. */
  lemma {:induction false} AcceptanceIgnoresOrder(geo: Geometry, t: Table, images: seq<LogicalImageSize>,
                                                  images': seq<LogicalImageSize>, cows: seq<string>)
    requires geo.blockBytes > 0 && GroupsExist(t) && multiset(images) == multiset(images')
    ensures Accepted(geo, t, images, cows) <==> Accepted(geo, t, images', cows)
  {
    if Accepted(geo, t, images, cows) {
      AcceptedThenToo(geo, t, images, images', cows);
    }
    if Accepted(geo, t, images', cows) {
      AcceptedThenToo(geo, t, images', images, cows);
    }
  }

  /** What the image planner accepts. */
  ghost predicate Accepted(geo: Geometry, t: Table, images: seq<LogicalImageSize>, cows: seq<string>)
    requires geo.blockBytes > 0 && GroupsExist(t)
  {
    ImagesOk(t.parts, images) && CowsOk(t.parts, images, cows) && WantsFit(geo, t, Wanted(geo, images), cows)
  }

  lemma {:induction false} AcceptedThenToo(geo: Geometry, t: Table, images: seq<LogicalImageSize>,
                                           images': seq<LogicalImageSize>, cows: seq<string>)
    requires geo.blockBytes > 0 && GroupsExist(t) && multiset(images) == multiset(images')
    requires Accepted(geo, t, images, cows)
    ensures Accepted(geo, t, images', cows)
  {
    OrderDoesNotMatter(geo, images, images');
    forall k | 0 <= k < |images'| ensures images'[k] in images {
      assert images'[k] in multiset(images');
    }
    forall c | c in cows ensures !Named(images', c) {
      NamedInBoth(images, images', c);
    }
  }

  lemma {:induction false} NamedInBoth(images: seq<LogicalImageSize>, images': seq<LogicalImageSize>, n: string)
    requires multiset(images) == multiset(images')
    ensures Named(images', n) ==> Named(images, n)
  {
    if Named(images', n) {
      var k :| 0 <= k < |images'| && images'[k].name == n;
      assert images'[k] in multiset(images');
      var i :| 0 <= i < |images| && images[i] == images'[k];
    }
  }

  lemma {:induction false} PermutedDistinct(images: seq<LogicalImageSize>, images': seq<LogicalImageSize>)
    requires multiset(images) == multiset(images') && DistinctNames(images)
    ensures DistinctNames(images')
  {
    forall i, j | 0 <= i < j < |images'| ensures images'[i].name != images'[j].name {
      var x, y := images'[i], images'[j];
      assert x in multiset(images') && y in multiset(images');
      var a :| 0 <= a < |images| && images[a] == x;
      var c :| 0 <= c < |images| && images[c] == y;
      if a == c {
        TwiceInMultiset(images', i, j);
        OnceInMultiset(images, a);
      }
    }
  }
}
