/** Inspecting a whole ABL image: the scan in place, and the ELF program headers. */
module AblInspect {
  import opened Wrappers
  import opened Bytes
  import opened AblImage
  import opened AblScan

  method ExamineApp(data: seq<Byte>, i: nat) returns (app: Option<App>)
    requires i + 64 <= |data|
    ensures app == AppAt(data, i)
  {
    if data[i] != 0x4d || data[i + 1] != 0x5a {
      return None;
    }
    var size := PeSize(data[i..]);
    PeSizeInside(data[i..]);
    app := if size == 0 then None else Some(App(size, HasNeedle(data[i..i + size])));
  }

  /** The application at offset `i`, as a list of at most one. */
  method FindApp(data: seq<Byte>, i: nat) returns (found: seq<App>)
    requires i + 64 <= |data|
    ensures |found| <= 1 && AppsFrom(data, i) == found + AppsFrom(data, i + 1)
  {
    var app := ExamineApp(data, i);
    found := ToSeq(app);
  }

  lemma {:induction false} PeSizeInside(data: seq<Byte>)
    ensures PeSize(data) <= |data|
  {
    if PeSize(data) != 0 {
      PeSizeCovers(data);
    }
  }

  /** The LZMA sections of a buffer, found offset by offset. */
  method FindSections(lzma: Lzma, data: seq<Byte>) returns (found: seq<Section>)
    ensures found == SectionsFrom(lzma, data, 4)
  {
    found := [];
    var at := 4;
    while at + 20 <= |data|
      invariant 4 <= at && found + SectionsFrom(lzma, data, at) == SectionsFrom(lzma, data, 4)
      decreases |data| - at
    {
      found := found + SectionAt(lzma, data, at);
      at := at + 1;
    }
  }

  class Scan {
    var best: nat
    var attempts: nat
    var total: nat
    var status: AblStatus
    var exhausted: bool
    ghost var seen: seq<Buffer>
    ghost var decoded: nat

    ghost function Now(): State
      reads this
    {
      State(best, attempts, total, status, exhausted, seen, decoded)
    }

    constructor ()
      ensures Now() == START
    {
      best, attempts, total, status, exhausted, seen, decoded := 0, 0, 0, Unknown, false, [], 0;
    }

    method WeighOne(app: App, ghost rest: seq<App>)
      modifies this
      ensures WeighAll(old(Now()), [app] + rest) == WeighAll(Now(), rest)
    {
      assert ([app] + rest)[1..] == rest;
      if app.size > best {
        best := app.size;
        status := if app.loader then EfispLoader else NoEfispLoader;
      }
    }

    /** The search for applications in one buffer. */
    method WeighBuffer(data: seq<Byte>)
      modifies this
      ensures Now() == WeighAll(old(Now()), AppsFrom(data, 0))
    {
      var i := 0;
      while i + 64 <= |data|
        invariant WeighAll(Now(), AppsFrom(data, i)) == WeighAll(old(Now()), AppsFrom(data, 0))
        decreases |data| - i
      {
        var found := FindApp(data, i);
        if found != [] {
          assert found == [found[0]];
          WeighOne(found[0], AppsFrom(data, i + 1));
        } else {
          assert found + AppsFrom(data, i + 1) == AppsFrom(data, i + 1);
        }
        i := i + 1;
      }
    }

    /** One section of the loop; `stop` when the attempts are used up. */
    method UnpackSection(lzma: Lzma, section: Section, depth: nat, ghost rest: seq<Section>) returns (stop: bool)
      requires depth <= MAX_DEPTH
      modifies this
      ensures UnpackAll(lzma, old(Now()), [section] + rest, depth) ==
        if stop then Now() else UnpackAll(lzma, Now(), rest, depth)
      decreases MAX_DEPTH - depth, 1
    {
      assert ([section] + rest)[1..] == rest;
      if section.Malformed? {
        exhausted := true;
        return false;
      }
      attempts := attempts + 1;
      if attempts > MAX_ATTEMPTS {
        exhausted := true;
        return true;
      }
      decoded := decoded + 1;
      if section.output.None? {
        exhausted := true;
      } else {
        Visit(lzma, section.output.value, depth + 1);
      }
      stop := false;
    }

    method Visit(lzma: Lzma, data: seq<Byte>, depth: nat)
      modifies this
      ensures Now() == AblScan.Visit(lzma, old(Now()), data, depth)
      decreases if depth > MAX_DEPTH then 0 else MAX_DEPTH + 1 - depth, 0
    {
      if depth > MAX_DEPTH || |data| > BUDGET - total {
        exhausted := true;
        return;
      }
      Open(data, depth);
      UnpackBuffer(lzma, data, depth);
    }

    /** Counts a buffer and weighs its applications. */
    method Open(data: seq<Byte>, depth: nat)
      modifies this
      ensures Now() == Opened(old(Now()), data, depth)
    {
      total := total + |data|;
      seen := seen + [Buffer(data, depth)];
      WeighBuffer(data);
    }

    /** The section loop of one buffer. */
    method UnpackBuffer(lzma: Lzma, data: seq<Byte>, depth: nat)
      requires depth <= MAX_DEPTH
      modifies this
      ensures Now() == UnpackAll(lzma, old(Now()), SectionsFrom(lzma, data, 4), depth)
      decreases MAX_DEPTH - depth, 3
    {
      var sections := FindSections(lzma, data);
      UnpackSections(lzma, sections, depth);
    }

    method UnpackSections(lzma: Lzma, sections: seq<Section>, depth: nat)
      requires depth <= MAX_DEPTH
      modifies this
      ensures Now() == UnpackAll(lzma, old(Now()), sections, depth)
      decreases MAX_DEPTH - depth, 2
    {
      assert sections[0..] == sections;
      for i := 0 to |sections|
        invariant UnpackAll(lzma, Now(), sections[i..], depth) == UnpackAll(lzma, old(Now()), sections, depth)
      {
        assert sections[i..] == [sections[i]] + sections[i + 1..];
        var stop := UnpackSection(lzma, sections[i], depth, sections[i + 1..]);
        if stop { return; }
      }
    }
  }

  // ----- InspectAbl -----

  /** The program headers lie inside an image of `capacity` bytes. */
  predicate ElfInside(elf: Elf, capacity: nat) {
    && elf.table.size == elf.count * elf.stride && elf.table.offset + elf.table.size <= capacity
    && (if elf.wide then 56 else 32) <= elf.stride
  }

  function HeaderAt(elf: Elf, i: nat): (at: nat)
    requires i < elf.count && elf.table.size == elf.count * elf.stride
    ensures at + elf.stride <= elf.table.offset + elf.table.size
  {
    assert elf.stride * i + elf.stride == elf.stride * (i + 1) <= elf.stride * elf.count;
    elf.table.offset + elf.stride * i
  }

  /** The segment to scan for program header `i`: None when out of range, empty when there is nothing to do. */
  function Segment(image: seq<Byte>, elf: Elf, i: nat): Option<seq<Byte>>
    requires i < elf.count && ElfInside(elf, |image|)
  {
    var at := HeaderAt(elf, i);
    var part := Program(image, at, elf.wide, |image|);
    if part.None? then None
    else if Le32(image, at) == 1 then Some(image[part.value.offset..part.value.offset + part.value.size])
    else Some([])
  }

  /** The segments of the headers from `i` on; None when a header is out of range. */
  function Segments(image: seq<Byte>, elf: Elf, i: nat): Option<seq<seq<Byte>>>
    requires i <= elf.count && ElfInside(elf, |image|)
    decreases elf.count - i
  {
    if i == elf.count then Some([]) else
      var first, rest := Segment(image, elf, i), Segments(image, elf, i + 1);
      if first.None? || rest.None? then None else Some([first.value] + rest.value)
  }

  /** Scans the segments in turn, skipping empty ones. */
  function ScanAll(lzma: Lzma, s: State, segments: seq<seq<Byte>>): State
    decreases |segments|
  {
    if |segments| == 0 then s
    else ScanAll(lzma, if segments[0] != [] then AblScan.Visit(lzma, s, segments[0], 0) else s, segments[1..])
  }

  function Verdict(s: Option<State>): AblStatus {
    if s.None? || s.value.exhausted then Unknown else s.value.status
  }

  function InspectAbl(lzma: Lzma, image: seq<Byte>): AblStatus {
    if |image| < 64 || |image| > MAX_INPUT then Unknown else
      var elf := ElfExtent(image, |image|);
      if elf.Some? then
        var segments := Segments(image, elf.value, 0);
        Verdict(if segments.None? then None else Some(ScanAll(lzma, START, segments.value)))
      else if image[0] == 0x4d && image[1] == 0x5a then Verdict(Some(AblScan.Visit(lzma, START, image, 0)))
      else Unknown
  }

  lemma {:induction false} ScanAllIsSound(lzma: Lzma, s: State, segments: seq<seq<Byte>>)
    requires Sound(s)
    ensures Sound(ScanAll(lzma, s, segments))
    decreases |segments|
  {
    if |segments| > 0 {
      if segments[0] != [] {
        VisitIsSound(lzma, s, segments[0], 0);
      }
      ScanAllIsSound(lzma, if segments[0] != [] then AblScan.Visit(lzma, s, segments[0], 0) else s, segments[1..]);
    }
  }

  /** The inspection as it runs: one scan object visited segment by segment. */
  method RunInspectAbl(lzma: Lzma, image: seq<Byte>) returns (status: AblStatus)
    ensures status == InspectAbl(lzma, image)
  {
    if |image| < 64 || |image| > MAX_INPUT { return Unknown; }
    var scan := new Scan();
    var elf := ElfExtent(image, |image|);
    var inRange := true;
    if elf.Some? {
      inRange := InspectSegments(lzma, image, elf.value, scan);
    } else if image[0] == 0x4d && image[1] == 0x5a {
      scan.Visit(lzma, image, 0);
    } else {
      return Unknown;
    }
    status := if !inRange || scan.exhausted then Unknown else scan.status;
  }

  lemma {:induction false} SegmentsNext(image: seq<Byte>, elf: Elf, i: nat)
    requires i < elf.count && ElfInside(elf, |image|)
    ensures Segments(image, elf, i).Some? <==> Segment(image, elf, i).Some? && Segments(image, elf, i + 1).Some?
    ensures Segments(image, elf, i).Some? ==>
      && |Segments(image, elf, i).value| > 0
      && Segments(image, elf, i).value[0] == Segment(image, elf, i).value
      && Segments(image, elf, i).value[1..] == Segments(image, elf, i + 1).value
  {
  }

  method InspectSegments(lzma: Lzma, image: seq<Byte>, elf: Elf, scan: Scan) returns (inRange: bool)
    requires ElfInside(elf, |image|)
    modifies scan
    ensures inRange <==> Segments(image, elf, 0).Some?
    ensures inRange ==> scan.Now() == ScanAll(lzma, old(scan.Now()), Segments(image, elf, 0).value)
  {
    for i := 0 to elf.count
      invariant Segments(image, elf, i).Some? <==> Segments(image, elf, 0).Some?
      invariant Segments(image, elf, i).Some? ==>
        ScanAll(lzma, scan.Now(), Segments(image, elf, i).value) ==
        ScanAll(lzma, old(scan.Now()), Segments(image, elf, 0).value)
    {
      SegmentsNext(image, elf, i);
      var segment := Segment(image, elf, i);
      if segment.None? { return false; }
      if segment.value != [] {
        scan.Visit(lzma, segment.value, 0);
      }
    }
    inRange := true;
  }
}
