/** Reading only the ELF extent of a partition, and why that does not change the verdict. */
module AblExtent {
  import opened Wrappers
  import opened Bytes
  import opened AblImage
  import opened AblScan
  import opened AblInspect

  function Max(a: nat, b: nat): nat {
    if a > b then a else b
  }

  function ProgramAt(image: seq<Byte>, elf: Elf, i: nat): Option<Range>
    requires i < elf.count && ElfInside(elf, |image|)
  {
    Program(image, HeaderAt(elf, i), elf.wide, |image|)
  }

  /** The end of the furthest non-empty segment from header `i` on; None when a header is out of range. */
  function ProgramsExtent(image: seq<Byte>, elf: Elf, i: nat, extent: nat): Option<nat>
    requires i <= elf.count && ElfInside(elf, |image|)
    decreases elf.count - i
  {
    if i == elf.count then Some(extent) else
      var program := ProgramAt(image, elf, i);
      if program.None? then None else
        ProgramsExtent(image, elf, i + 1,
          if program.value.size != 0 then Max(extent, program.value.offset + program.value.size) else extent)
  }

  /** How many bytes of a partition are read: its ELF extent, or all of it. */
  function ReadExtent(partition: seq<Byte>): Option<nat>
    requires |partition| >= 64
  {
    var elf := ElfExtent(partition[..64], |partition|);
    if elf.None? then Some(|partition|)
    else ProgramsExtent(partition, elf.value, 0, Max(64, elf.value.table.offset + elf.value.table.size))
  }

  /** Every empty segment from header `i` on starts inside the first `extent` bytes. */
  predicate EmptySegmentsInside(image: seq<Byte>, elf: Elf, extent: nat, i: nat)
    requires i <= elf.count && ElfInside(elf, |image|)
    decreases elf.count - i
  {
    i == elf.count || (SegmentStartsInside(ProgramAt(image, elf, i), extent) &&
      EmptySegmentsInside(image, elf, extent, i + 1))
  }

  predicate SegmentStartsInside(program: Option<Range>, extent: nat) {
    program.Some? && program.value.size == 0 ==> program.value.offset <= extent
  }

  predicate SegmentEndsInside(program: Option<Range>, extent: nat) {
    program.Some? && (program.value.size != 0 ==> program.value.offset + program.value.size <= extent)
  }

  lemma {:induction false} ExtentCovers(image: seq<Byte>, elf: Elf, i: nat, extent: nat)
    requires i <= elf.count && ElfInside(elf, |image|) && extent <= |image|
    requires ProgramsExtent(image, elf, i, extent).Some?
    ensures extent <= ProgramsExtent(image, elf, i, extent).value <= |image|
    ensures forall k :: i <= k < elf.count ==>
      SegmentEndsInside(ProgramAt(image, elf, k), ProgramsExtent(image, elf, i, extent).value)
    decreases elf.count - i
  {
    if i < elf.count {
      var program := ProgramAt(image, elf, i).value;
      ExtentCovers(image, elf, i + 1, if program.size != 0 then Max(extent, program.offset + program.size) else extent);
    }
  }

  lemma {:induction false} SameLe64(a: seq<Byte>, b: seq<Byte>, n: nat, at: nat)
    requires n <= |a| && n <= |b| && a[..n] == b[..n] && at + 8 <= n
    ensures Le64(a, at) == Le64(b, at) && Le32(a, at) == Le32(b, at) && Le16(a, at) == Le16(b, at)
  {
    assert forall k :: 0 <= k < n ==> a[k] == a[..n][k] == b[k];
  }

  /**
    The ELF header is decided by the first 64 bytes, and a smaller capacity that still holds the table changes
    nothing.
   */
  lemma {:induction false} SameElf(a: seq<Byte>, b: seq<Byte>, capacity: nat, capacity': nat)
    requires |a| >= 64 && |b| >= 64 && a[..64] == b[..64]
    requires ElfExtent(a, capacity).Some? ==>
      ElfExtent(a, capacity).value.table.offset + ElfExtent(a, capacity).value.table.size <= capacity' <= capacity
    requires ElfExtent(a, capacity).None? ==> capacity' == capacity
    ensures ElfExtent(b, capacity') == ElfExtent(a, capacity)
  {
    assert a[..4] == a[..64][..4] == b[..4];
    assert a[4] == a[..64][4] == b[4] && a[5] == a[..64][5] == b[5];
    SameLe64(a, b, 64, 32);
    SameLe64(a, b, 64, 28);
    SameLe64(a, b, 64, 54);
    SameLe64(a, b, 64, 42);
    SameLe64(a, b, 64, 56);
    SameLe64(a, b, 64, 44);
  }

  /** A program header read from the truncated image. */
  lemma {:induction false} SameProgram(image: seq<Byte>, extent: nat, elf: Elf, i: nat)
    requires extent <= |image| && ElfInside(elf, extent) && i < elf.count
    requires SegmentEndsInside(ProgramAt(image, elf, i), extent)
    ensures ProgramAt(image[..extent], elf, i) ==
      if SegmentStartsInside(ProgramAt(image, elf, i), extent) then ProgramAt(image, elf, i) else None
    ensures Le32(image[..extent], HeaderAt(elf, i)) == Le32(image, HeaderAt(elf, i))
  {
    var cut, at := image[..extent], HeaderAt(elf, i);
    assert cut[..extent] == image[..extent];
    SameLe64(cut, image, extent, at);
    SameLe64(cut, image, extent, at + 4);
    SameLe64(cut, image, extent, at + 8);
    SameLe64(cut, image, extent, at + 16);
    if elf.wide {
      SameLe64(cut, image, extent, at + 32);
    }
  }

  lemma {:induction false} SameSegment(image: seq<Byte>, extent: nat, elf: Elf, i: nat)
    requires extent <= |image| && ElfInside(elf, extent) && i < elf.count
    requires SegmentEndsInside(ProgramAt(image, elf, i), extent)
    ensures Segment(image, elf, i).Some?
    ensures Segment(image[..extent], elf, i) ==
      if SegmentStartsInside(ProgramAt(image, elf, i), extent) then Segment(image, elf, i) else None
  {
    SameProgram(image, extent, elf, i);
    var program := ProgramAt(image, elf, i).value;
    if SegmentStartsInside(ProgramAt(image, elf, i), extent) {
      assert program.offset + program.size <= extent;
      assert image[..extent][program.offset..program.offset + program.size] ==
        image[program.offset..program.offset + program.size];
    }
  }

  lemma {:induction false} SameSegments(image: seq<Byte>, cut: seq<Byte>, elf: Elf, i: nat)
    requires cut <= image && ElfInside(elf, |cut|) && i <= elf.count
    requires forall k :: i <= k < elf.count ==> SegmentEndsInside(ProgramAt(image, elf, k), |cut|)
    ensures Segments(cut, elf, i) == if EmptySegmentsInside(image, elf, |cut|, i) then Segments(image, elf, i) else None
    decreases elf.count - i
  {
    if i < elf.count {
      assert image[..|cut|] == cut;
      SameSegment(image, |cut|, elf, i);
      SameSegments(image, cut, elf, i + 1);
      SegmentsNext(image, elf, i);
      SegmentsNext(cut, elf, i);
    }
  }

  /**
    Inspecting only the extent gives the verdict of the whole partition, unless an empty segment starts
    beyond the extent: then the verdict is Unknown.
   */
  lemma {:induction false} TruncatedReadKeepsVerdict(lzma: Lzma, partition: seq<Byte>)
    requires 64 <= |partition| <= MAX_INPUT && ReadExtent(partition).Some?
    ensures
      var extent := ReadExtent(partition).value;
      var elf := ElfExtent(partition[..64], |partition|);
      && 64 <= extent <= |partition|
      && InspectAbl(lzma, partition[..extent]) ==
        if elf.Some? && !EmptySegmentsInside(partition, elf.value, extent, 0) then Unknown
        else InspectAbl(lzma, partition)
  {
    var extent, elf := ReadExtent(partition).value, ElfExtent(partition[..64], |partition|);
    assert partition[..64][..64] == partition[..64];
    if elf.None? {
      assert partition[..extent] == partition;
    } else {
      var start := Max(64, elf.value.table.offset + elf.value.table.size);
      ExtentCovers(partition, elf.value, 0, start);
      var cut := partition[..extent];
      assert cut[..64] == partition[..64];
      SameElf(partition[..64], partition, |partition|, |partition|);
      SameElf(partition[..64], cut, |partition|, extent);
      SameSegments(partition, cut, elf.value, 0);
    }
  }

  /** A program header out of range makes the whole partition Unknown too. */
  lemma {:induction false} OutOfRangeHasNoSegments(image: seq<Byte>, elf: Elf, i: nat, extent: nat)
    requires i <= elf.count && ElfInside(elf, |image|) && ProgramsExtent(image, elf, i, extent).None?
    ensures Segments(image, elf, i).None?
    decreases elf.count - i
  {
    var program := ProgramAt(image, elf, i);
    if program.Some? {
      OutOfRangeHasNoSegments(image, elf, i + 1,
        if program.value.size != 0 then Max(extent, program.value.offset + program.value.size) else extent);
    }
  }

  lemma {:induction false} UnreadableIsUnknown(lzma: Lzma, partition: seq<Byte>)
    requires 64 <= |partition| <= MAX_INPUT && ReadExtent(partition).None?
    ensures InspectAbl(lzma, partition) == Unknown
  {
    var elf := ElfExtent(partition[..64], |partition|).value;
    assert partition[..64][..64] == partition[..64];
    SameElf(partition[..64], partition, |partition|, |partition|);
    OutOfRangeHasNoSegments(partition, elf, 0, Max(64, elf.table.offset + elf.table.size));
  }
}
