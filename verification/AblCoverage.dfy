/**
  What a definite verdict has looked at: every loadable segment, everything packed inside it at any depth, and
  nothing else.
 */
module AblCoverage {
  import opened Wrappers
  import opened Bytes
  import opened AblImage
  import opened AblScan
  import opened AblInspect

  // ----- nothing is left out -----

  /** A section that was decoded and scanned one level deeper. */
  predicate Followed(section: Section, depth: nat, seen: seq<Buffer>) {
    section.Packed? && section.output.Some? && Buffer(section.output.value, depth + 1) in seen
  }

  ghost predicate AllFollowed(sections: seq<Section>, depth: nat, seen: seq<Buffer>) {
    forall i :: 0 <= i < |sections| ==> Followed(sections[i], depth, seen)
  }

  /** Every section of the buffer was followed. */
  ghost predicate Expanded(lzma: Lzma, b: Buffer, seen: seq<Buffer>) {
    AllFollowed(SectionsFrom(lzma, b.data, 4), b.depth, seen)
  }

  ghost predicate ExpandedFrom(lzma: Lzma, seen: seq<Buffer>, from: nat) {
    forall k :: from <= k < |seen| ==> Expanded(lzma, seen[k], seen)
  }

  lemma {:induction false} StillIn(b: Buffer, seen: seq<Buffer>, more: seq<Buffer>)
    requires b in seen && seen <= more
    ensures b in more
  {
    var k :| 0 <= k < |seen| && seen[k] == b;
    assert more[k] == b;
  }

  lemma {:induction false} StillFollowed(sections: seq<Section>, depth: nat, seen: seq<Buffer>, more: seq<Buffer>)
    requires AllFollowed(sections, depth, seen) && seen <= more
    ensures AllFollowed(sections, depth, more)
  {
    forall i | 0 <= i < |sections| ensures Followed(sections[i], depth, more) {
      StillIn(Buffer(sections[i].output.value, depth + 1), seen, more);
    }
  }

  lemma {:induction false} ExpandedJoins(lzma: Lzma, seen: seq<Buffer>, more: seq<Buffer>, from: nat)
    requires seen <= more && ExpandedFrom(lzma, seen, from) && ExpandedFrom(lzma, more, |seen|)
    ensures ExpandedFrom(lzma, more, from)
  {
    forall k | from <= k < |more| ensures Expanded(lzma, more[k], more) {
      if k < |seen| {
        StillFollowed(SectionsFrom(lzma, seen[k].data, 4), seen[k].depth, seen, more);
      }
    }
  }

  lemma {:induction false} FollowedFirst(sections: seq<Section>, depth: nat, seen: seq<Buffer>)
    requires |sections| > 0 && Followed(sections[0], depth, seen) && AllFollowed(sections[1..], depth, seen)
    ensures AllFollowed(sections, depth, seen)
  {
    forall i | 0 <= i < |sections| ensures Followed(sections[i], depth, seen) {
      assert i > 0 ==> sections[i] == sections[1..][i - 1];
    }
  }

  /** `r` is `s` after a scan that was not cut short and expanded all it added. */
  ghost predicate Covers(lzma: Lzma, s: State, r: State) {
    !r.exhausted ==> !s.exhausted && s.seen <= r.seen && ExpandedFrom(lzma, r.seen, |s.seen|)
  }

  lemma {:induction false} CoversJoins(lzma: Lzma, s: State, m: State, r: State)
    requires Covers(lzma, s, m) && Covers(lzma, m, r)
    ensures Covers(lzma, s, r)
  {
    if !r.exhausted {
      ExpandedJoins(lzma, m.seen, r.seen, |s.seen|);
    }
  }

  lemma {:induction false} UnpackAllCovers(lzma: Lzma, s: State, sections: seq<Section>, depth: nat, r: State)
    requires depth <= MAX_DEPTH && r == UnpackAll(lzma, s, sections, depth)
    ensures Covers(lzma, s, r) && (!r.exhausted ==> AllFollowed(sections, depth, r.seen))
    decreases MAX_DEPTH + 1 - depth, 0, |sections|
  {
    if |sections| > 0 {
      if sections[0].Malformed? {
        UnpackAllCovers(lzma, s.(exhausted := true), sections[1..], depth, r);
      } else if s.attempts + 1 <= MAX_ATTEMPTS {
        var m := UnpackOne(lzma, s, sections[0].output, depth);
        UnpackOneCovers(lzma, s, sections[0].output, depth, m);
        UnpackAllCovers(lzma, m, sections[1..], depth, r);
        CoversJoins(lzma, s, m, r);
        if !r.exhausted {
          StillIn(Buffer(sections[0].output.value, depth + 1), m.seen, r.seen);
          FollowedFirst(sections, depth, r.seen);
        }
      }
    }
  }

  lemma {:induction false} UnpackOneCovers(lzma: Lzma, s: State, output: Option<seq<Byte>>, depth: nat, r: State)
    requires depth <= MAX_DEPTH && r == UnpackOne(lzma, s, output, depth)
    ensures Covers(lzma, s, r) && (!r.exhausted ==> output.Some? && Buffer(output.value, depth + 1) in r.seen)
    decreases MAX_DEPTH - depth, 2, 0
  {
    if output.Some? {
      var s1 := s.(attempts := s.attempts + 1, decoded := s.decoded + 1);
      VisitCovers(lzma, s1, output.value, depth + 1, r);
    }
  }

  /** A visit that was not cut short has scanned its buffer and everything packed in it. */
  lemma {:induction false} VisitCovers(lzma: Lzma, s: State, data: seq<Byte>, depth: nat, r: State)
    requires r == AblScan.Visit(lzma, s, data, depth)
    ensures Covers(lzma, s, r) && (!r.exhausted ==> Buffer(data, depth) in r.seen)
    decreases if depth > MAX_DEPTH then 0 else MAX_DEPTH + 1 - depth, 1, 0
  {
    if depth <= MAX_DEPTH && |data| <= BUDGET - s.total {
      var m, sections := Opened(s, data, depth), SectionsFrom(lzma, data, 4);
      OpenedAdds(s, data, depth, m);
      UnpackAllCovers(lzma, m, sections, depth, r);
      if !r.exhausted {
        OpenedCovers(lzma, s, m, r, Buffer(data, depth));
      }
    }
  }

  lemma {:induction false} OpenedAdds(s: State, data: seq<Byte>, depth: nat, m: State)
    requires m == Opened(s, data, depth)
    ensures m.seen == s.seen + [Buffer(data, depth)] && m.exhausted == s.exhausted
  {
    WeighAllFrame(s.(total := s.total + |data|, seen := s.seen + [Buffer(data, depth)]), AppsFrom(data, 0));
  }

  lemma {:induction false} OpenedCovers(lzma: Lzma, s: State, m: State, r: State, b: Buffer)
    requires m.seen == s.seen + [b] && m.exhausted == s.exhausted && !r.exhausted
    requires Covers(lzma, m, r) && Expanded(lzma, b, r.seen)
    ensures Covers(lzma, s, r) && b in r.seen
  {
    assert r.seen[|s.seen|] == b;
    forall k | |s.seen| <= k < |r.seen| ensures Expanded(lzma, r.seen[k], r.seen) {
    }
  }

  // ----- nothing else is looked at -----

  /** Buffer `k` was decoded from an earlier buffer. */
  ghost predicate Derived(lzma: Lzma, seen: seq<Buffer>, k: nat)
    requires k < |seen|
  {
    exists j :: 0 <= j < k && PackedIn(lzma, seen[j], seen[k])
  }

  ghost predicate PackedIn(lzma: Lzma, outer: Buffer, inner: Buffer) {
    inner.depth == outer.depth + 1 && Packed(Some(inner.data)) in SectionsFrom(lzma, outer.data, 4)
  }

  /** Everything a scan adds after position `from` was decoded from an earlier buffer. */
  ghost predicate DerivedFrom(lzma: Lzma, seen: seq<Buffer>, from: nat) {
    forall k :: from <= k < |seen| ==> Derived(lzma, seen, k)
  }

  lemma {:induction false} DerivedJoins(lzma: Lzma, seen: seq<Buffer>, more: seq<Buffer>, from: nat)
    requires seen <= more && DerivedFrom(lzma, seen, from) && DerivedFrom(lzma, more, |seen|)
    ensures DerivedFrom(lzma, more, from)
  {
    forall k | from <= k < |more| ensures Derived(lzma, more, k) {
      if k < |seen| {
        assert Derived(lzma, seen, k);
        var j :| 0 <= j < k && PackedIn(lzma, seen[j], seen[k]);
        assert PackedIn(lzma, more[j], more[k]);
      }
    }
  }

  /** All `sections` belong to buffer `outer` of `seen`, which has that depth. */
  ghost predicate SectionsOf(lzma: Lzma, seen: seq<Buffer>, outer: nat, sections: seq<Section>, depth: nat) {
    && outer < |seen| && seen[outer].depth == depth
    && forall i :: 0 <= i < |sections| ==> sections[i] in SectionsFrom(lzma, seen[outer].data, 4)
  }

  lemma {:induction false} UnpackAllDerives(lzma: Lzma, s: State, sections: seq<Section>, depth: nat, outer: nat,
                                            r: State)
    requires depth <= MAX_DEPTH && r == UnpackAll(lzma, s, sections, depth)
    requires SectionsOf(lzma, s.seen, outer, sections, depth)
    ensures s.seen <= r.seen && DerivedFrom(lzma, r.seen, |s.seen|)
    decreases MAX_DEPTH + 1 - depth, 0, |sections|
  {
    if |sections| > 0 {
      if sections[0].Malformed? {
        UnpackAllDerives(lzma, s.(exhausted := true), sections[1..], depth, outer, r);
      } else if s.attempts + 1 <= MAX_ATTEMPTS {
        var m := UnpackOne(lzma, s, sections[0].output, depth);
        UnpackOneDerives(lzma, s, sections[0].output, depth, outer, m);
        assert SectionsOf(lzma, m.seen, outer, sections[1..], depth);
        UnpackAllDerives(lzma, m, sections[1..], depth, outer, r);
        DerivedJoins(lzma, m.seen, r.seen, |s.seen|);
      }
    }
  }

  lemma {:induction false} UnpackOneDerives(lzma: Lzma, s: State, output: Option<seq<Byte>>, depth: nat, outer: nat,
                                            r: State)
    requires depth <= MAX_DEPTH && r == UnpackOne(lzma, s, output, depth) && outer < |s.seen|
    requires s.seen[outer].depth == depth
    requires Packed(output) in SectionsFrom(lzma, s.seen[outer].data, 4)
    ensures s.seen <= r.seen && DerivedFrom(lzma, r.seen, |s.seen|)
    decreases MAX_DEPTH - depth, 2, 0
  {
    if output.Some? {
      var s1 := s.(attempts := s.attempts + 1, decoded := s.decoded + 1);
      VisitDerives(lzma, s1, output.value, depth + 1, r);
      if |r.seen| > |s.seen| {
        assert PackedIn(lzma, s.seen[outer], Buffer(output.value, depth + 1));
        FirstIsDerived(lzma, s.seen, r.seen, outer);
      }
    }
  }

  lemma {:induction false} FirstIsDerived(lzma: Lzma, seen: seq<Buffer>, more: seq<Buffer>, outer: nat)
    requires outer < |seen| < |more| && seen <= more
    requires PackedIn(lzma, seen[outer], more[|seen|]) && DerivedFrom(lzma, more, |seen| + 1)
    ensures DerivedFrom(lzma, more, |seen|)
  {
    assert PackedIn(lzma, more[outer], more[|seen|]);
    assert Derived(lzma, more, |seen|);
  }

  /** A visit adds its own buffer first; whatever it adds after that was decoded from an earlier buffer. */
  lemma {:induction false} VisitDerives(lzma: Lzma, s: State, data: seq<Byte>, depth: nat, r: State)
    requires r == AblScan.Visit(lzma, s, data, depth)
    ensures s.seen <= r.seen && (|r.seen| > |s.seen| ==> r.seen[|s.seen|] == Buffer(data, depth))
    ensures DerivedFrom(lzma, r.seen, |s.seen| + 1)
    decreases if depth > MAX_DEPTH then 0 else MAX_DEPTH + 1 - depth, 1, 0
  {
    if depth <= MAX_DEPTH && |data| <= BUDGET - s.total {
      var m, sections := Opened(s, data, depth), SectionsFrom(lzma, data, 4);
      OpenedAdds(s, data, depth, m);
      assert SectionsOf(lzma, m.seen, |s.seen|, sections, depth);
      UnpackAllDerives(lzma, m, sections, depth, |s.seen|, r);
    }
  }

  // ----- whole images -----

  /** The buffers an inspection starts from. */
  function Roots(image: seq<Byte>): seq<seq<Byte>> {
    var elf := ElfExtent(image, |image|);
    if elf.None? then [image] else
      var segments := Segments(image, elf.value, 0);
      if segments.None? then [] else segments.value
  }

  /** Buffer `k` is a root, or was decoded from an earlier buffer. */
  ghost predicate Explained(lzma: Lzma, roots: seq<seq<Byte>>, seen: seq<Buffer>, k: nat)
    requires k < |seen|
  {
    (seen[k].depth == 0 && seen[k].data in roots) || Derived(lzma, seen, k)
  }

  ghost predicate ExplainedFrom(lzma: Lzma, roots: seq<seq<Byte>>, seen: seq<Buffer>, from: nat) {
    forall k :: from <= k < |seen| ==> Explained(lzma, roots, seen, k)
  }

  lemma {:induction false} ExplainedJoins(lzma: Lzma, roots: seq<seq<Byte>>, seen: seq<Buffer>, more: seq<Buffer>,
                                          from: nat)
    requires seen <= more && ExplainedFrom(lzma, roots, seen, from) && ExplainedFrom(lzma, roots, more, |seen|)
    ensures ExplainedFrom(lzma, roots, more, from)
  {
    forall k | from <= k < |more| ensures Explained(lzma, roots, more, k) {
      if k < |seen| {
        assert Explained(lzma, roots, seen, k);
      }
      if k < |seen| && Derived(lzma, seen, k) {
        var j :| 0 <= j < k && PackedIn(lzma, seen[j], seen[k]);
        assert PackedIn(lzma, more[j], more[k]);
      }
    }
  }

  lemma {:induction false} VisitExplains(lzma: Lzma, s: State, root: seq<Byte>, roots: seq<seq<Byte>>, r: State)
    requires r == AblScan.Visit(lzma, s, root, 0) && root in roots
    ensures s.seen <= r.seen && ExplainedFrom(lzma, roots, r.seen, |s.seen|)
  {
    VisitDerives(lzma, s, root, 0, r);
  }

  /** Every non-empty root has been scanned. */
  ghost predicate RootsSeen(roots: seq<seq<Byte>>, seen: seq<Buffer>) {
    forall i :: 0 <= i < |roots| && roots[i] != [] ==> Buffer(roots[i], 0) in seen
  }

  lemma {:induction false} RootsSeenFirst(roots: seq<seq<Byte>>, seen: seq<Buffer>)
    requires |roots| > 0 && RootsSeen(roots[1..], seen) && (roots[0] != [] ==> Buffer(roots[0], 0) in seen)
    ensures RootsSeen(roots, seen)
  {
    forall i | 0 <= i < |roots| && roots[i] != [] ensures Buffer(roots[i], 0) in seen {
      assert i > 0 ==> roots[i] == roots[1..][i - 1];
    }
  }

  lemma {:induction false} ScanAllCovers(lzma: Lzma, s: State, roots: seq<seq<Byte>>, all: seq<seq<Byte>>, r: State)
    requires r == ScanAll(lzma, s, roots) && forall i :: 0 <= i < |roots| ==> roots[i] in all
    ensures Covers(lzma, s, r) && (!r.exhausted ==> RootsSeen(roots, r.seen))
    ensures s.seen <= r.seen && ExplainedFrom(lzma, all, r.seen, |s.seen|)
    decreases |roots|
  {
    if |roots| > 0 {
      var m := if roots[0] != [] then AblScan.Visit(lzma, s, roots[0], 0) else s;
      if roots[0] != [] {
        VisitCovers(lzma, s, roots[0], 0, m);
        VisitExplains(lzma, s, roots[0], all, m);
      }
      ScanAllCovers(lzma, m, roots[1..], all, r);
      CoversJoins(lzma, s, m, r);
      ExplainedJoins(lzma, all, m.seen, r.seen, |s.seen|);
      if !r.exhausted {
        if roots[0] != [] {
          StillIn(Buffer(roots[0], 0), m.seen, r.seen);
        }
        RootsSeenFirst(roots, r.seen);
      }
    }
  }

  /**
    A definite verdict is the needle test on the first largest application among exactly these buffers: the
    loadable segments (or the bare application image) and whatever is packed in them, at any depth.
   */
  lemma {:induction false} VerdictCoversImage(lzma: Lzma, image: seq<Byte>) returns (s: State)
    requires InspectAbl(lzma, image) != Unknown
    ensures Sound(s) && s.status == InspectAbl(lzma, image)
    ensures RootsSeen(Roots(image), s.seen) && ExpandedFrom(lzma, s.seen, 0)
    ensures ExplainedFrom(lzma, Roots(image), s.seen, 0)
  {
    var roots := Roots(image);
    s := ScanAll(lzma, START, roots);
    ScanAllIsSound(lzma, START, roots);
    ScanAllCovers(lzma, START, roots, roots, s);
    if ElfExtent(image, |image|).None? {
      ScanOne(lzma, START, image);
    }
  }

  lemma {:induction false} ScanOne(lzma: Lzma, s: State, image: seq<Byte>)
    requires image != []
    ensures ScanAll(lzma, s, [image]) == AblScan.Visit(lzma, s, image, 0)
  {
    assert [image][1..] == [];
  }
}
