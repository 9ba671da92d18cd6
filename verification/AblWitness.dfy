/**
  Inputs on which the ABL checks part ways: images that one PE validator takes and the other refuses, and a partition
  whose truncated read loses a definite verdict.
 */
module AblWitness {
  import opened Wrappers
  import opened Bytes
  import opened AblImage
  import opened AblScan
  import opened AblInspect
  import opened AblExtent

  // ----- the two PE validators -----

  /** The image with its declared header size set to zero. */
  function WithoutHeaderSize(data: seq<Byte>): seq<Byte>
    requires PeShape(data)
  {
    var at := Le32(data, 60) + 84;
    data[at := 0][at + 1 := 0][at + 2 := 0][at + 3 := 0]
  }

  lemma {:induction false} SameShape(data: seq<Byte>)
    requires PeShape(data)
    ensures PeShape(WithoutHeaderSize(data)) && |WithoutHeaderSize(data)| == |data|
    ensures TableOf(WithoutHeaderSize(data)) == TableOf(data) && CountOf(WithoutHeaderSize(data)) == CountOf(data)
    ensures Le32(WithoutHeaderSize(data), Le32(WithoutHeaderSize(data), 60) + 84) == 0
  {
    var z, pe := WithoutHeaderSize(data), Le32(data, 60);
    assert Le32(z, 60) == pe;
    assert z[pe..pe + 4] == data[pe..pe + 4];
    assert Le16(z, pe + 4) == Le16(data, pe + 4) && Le16(z, pe + 6) == Le16(data, pe + 6);
    assert Le16(z, pe + 20) == Le16(data, pe + 20) && Le16(z, pe + 24) == Le16(data, pe + 24);
    assert Le16(z, pe + 92) == Le16(data, pe + 92);
  }

  /** Every image the flasher takes has a variant that the flasher takes too and the inspector does not recognise. */
  lemma {:induction false} UndeclaredHeadersSplitValidators(data: seq<Byte>, capacity: nat)
    requires ValidImage(data, capacity)
    ensures PeShape(data)
    ensures ValidImage(WithoutHeaderSize(data), capacity) && PeSize(WithoutHeaderSize(data)) == 0
  {
    ValidImageByShape(data, capacity);
    SameShape(data);
    var z := WithoutHeaderSize(data);
    forall i | 0 <= i < CountOf(data) ensures SectionAccepted(z, TableOf(z), i) {
      assert SectionAccepted(data, TableOf(data), i);
      assert Le32(z, TableOf(z) + i * 40 + 16) == Le32(data, TableOf(data) + i * 40 + 16);
      assert Le32(z, TableOf(z) + i * 40 + 20) == Le32(data, TableOf(data) + i * 40 + 20);
    }
    ValidImageByShape(z, capacity);
    PeSizeByShape(z);
  }

  // ----- a smallest application -----

  /** An application of 240 bytes with one empty section that declares `headers` bytes of headers. */
  function SmallByte(i: nat, headers: Byte): Byte {
    if i == 0 then 0x4d else if i == 1 then 0x5a else if i == 60 then 64
    else if i == 64 then 0x50 else if i == 65 then 0x45 else if i == 68 then 0x64 else if i == 69 then 0xaa
    else if i == 70 then 1 else if i == 84 then 112 else if i == 88 then 0x0b else if i == 89 then 0x02
    else if i == 148 then headers else if i == 156 then 10 else 0
  }

  function SmallImage(headers: Byte): (d: seq<Byte>)
    ensures |d| == 240 && forall i :: 0 <= i < 240 ==> d[i] == SmallByte(i, headers)
  {
    seq(240, i requires 0 <= i < 240 => SmallByte(i, headers))
  }

  lemma {:induction false} SmallShape(headers: Byte)
    ensures var d := SmallImage(headers);
      && Le32(d, 60) == 64 && d[64..68] == [0x50, 0x45, 0, 0] && Le16(d, 68) == 0xaa64 && Le16(d, 70) == 1
      && Le16(d, 84) == 112 && Le16(d, 88) == 0x20b && Le16(d, 156) == 10 && Le32(d, 148) == headers
      && Le32(d, 216) == 0 && Le32(d, 220) == 0
  {
  }

  /**
    The flasher takes the small application whatever it declares; the inspector only when it declares all 240 bytes.
   */
  lemma {:induction false} SmallImageIsValid(headers: Byte)
    ensures ValidImage(SmallImage(headers), 240)
    ensures PeSize(SmallImage(headers)) == if headers == 240 then 240 else 0
  {
    var d := SmallImage(headers);
    SmallShape(headers);
    assert PeShape(d) && TableOf(d) == 200 && CountOf(d) == 1;
    assert SectionAccepted(d, 200, 0);
    ValidImageByShape(d, 240);
    PeSizeByShape(d);
    if headers == 240 {
      SectionsExtentMeaning(d, 200, 1, 0, 240);
      assert SectionInside(d, 200, 0);
      PeSizeCovers(d);
    }
  }

  // ----- its verdict -----

  lemma {:induction false} NoMoreApps(data: seq<Byte>, i: nat)
    requires forall k :: i <= k < |data| ==> data[k] != 0x4d
    ensures AppsFrom(data, i) == []
    decreases |data| - i
  {
    if i + 64 <= |data| {
      NoMoreApps(data, i + 1);
    }
  }

  lemma {:induction false} NoSections(lzma: Lzma, data: seq<Byte>, at: nat)
    requires 4 <= at && forall k :: at <= k < |data| ==> data[k] != 0x98
    ensures SectionsFrom(lzma, data, at) == []
    decreases |data| - at
  {
    if at + 20 <= |data| {
      assert data[at..at + 16][0] == data[at];
      NoSections(lzma, data, at + 1);
    }
  }

  lemma {:induction false} NoNeedle(data: seq<Byte>)
    requires forall k :: 0 <= k < |data| ==> data[k] != 0x65
    ensures !HasNeedle(data)
  {
    forall k: nat | k <= |data| ensures !NeedleAt(data, k) {
      if k + |NEEDLE| <= |data| {
        assert data[k..k + |NEEDLE|][0] == data[k];
      }
    }
  }

  lemma {:induction false} SmallApps()
    ensures AppsFrom(SmallImage(240), 0) == [App(240, false)]
  {
    var d := SmallImage(240);
    SmallImageIsValid(240);
    assert d[0..] == d && d[0..240] == d;
    NoNeedle(d);
    NoMoreApps(d, 1);
  }

  lemma {:induction false} SmallVerdict(lzma: Lzma)
    ensures var r := AblScan.Visit(lzma, START, SmallImage(240), 0);
      r.status == NoEfispLoader && !r.exhausted
  {
    SmallApps();
    NoSections(lzma, SmallImage(240), 4);
    OpenOne(SmallImage(240), App(240, false));
    QuietVisit(lzma, SmallImage(240), Opened(START, SmallImage(240), 0));
  }

  /** A buffer without packed sections is only opened. */
  lemma {:induction false} QuietVisit(lzma: Lzma, data: seq<Byte>, after: State)
    requires after == Opened(START, data, 0) && SectionsFrom(lzma, data, 4) == [] && |data| <= BUDGET
    ensures AblScan.Visit(lzma, START, data, 0) == after
  {
  }

  lemma {:induction false} OpenOne(data: seq<Byte>, app: App)
    requires AppsFrom(data, 0) == [app] && app.size > 0
    ensures Opened(START, data, 0).status == StatusOf(app) && !Opened(START, data, 0).exhausted
  {
    WeighOnly(START.(total := START.total + |data|, seen := START.seen + [Buffer(data, 0)]), app);
  }

  lemma {:induction false} WeighOnly(s: State, app: App)
    ensures WeighAll(s, [app]) == Weigh(s, app)
  {
    assert |[app][1..]| == 0;
  }

  // ----- a partition that loses its verdict -----

  function PartitionByte(i: nat): Byte {
    if i < 128 then
      if i == 0 then 0x7f else if i == 1 then 0x45 else if i == 2 then 0x4c else if i == 3 then 0x46
      else if i == 4 || i == 5 then 1 else if i == 28 then 64 else if i == 42 then 32 else if i == 44 then 2
      else if i == 64 then 1 else if i == 68 then 128 else if i == 80 then 240
      else if i == 100 then 0x7c else if i == 101 then 1 else 0
    else if i < 368 then SmallByte(i - 128, 240)
    else 0
  }

  /** An ELF partition of 400 bytes: the small application at 128, and an empty segment that starts at 380. */
  function SmallPartition(): (d: seq<Byte>)
    ensures |d| == 400 && forall i :: 0 <= i < 400 ==> d[i] == PartitionByte(i)
  {
    seq(400, i requires 0 <= i < 400 => PartitionByte(i))
  }

  const SMALL_ELF := Elf(Range(64, 64), 32, 2, false)

  lemma {:induction false} PartitionShape()
    ensures var d := SmallPartition();
      d[..4] == [0x7f, 0x45, 0x4c, 0x46] && Le32(d, 28) == 64 && Le16(d, 42) == 32 && Le16(d, 44) == 2
  {
  }

  lemma {:induction false} FirstProgram()
    ensures Le32(SmallPartition(), 64) == 1 && Le32(SmallPartition(), 68) == 128 && Le32(SmallPartition(), 80) == 240
  {
  }

  lemma {:induction false} SecondProgram()
    ensures Le32(SmallPartition(), 96) == 0 && Le32(SmallPartition(), 100) == 380 && Le32(SmallPartition(), 112) == 0
  {
  }

  lemma {:induction false} PartitionImage()
    ensures SmallPartition()[128..368] == SmallImage(240)
  {
  }

  lemma {:induction false} PartitionElf()
    ensures ElfExtent(SmallPartition(), 400) == Some(SMALL_ELF)
    ensures ElfExtent(SmallPartition()[..64], 400) == Some(SMALL_ELF)
  {
    PartitionShape();
    var d := SmallPartition();
    assert d[..64][..64] == d[..64];
    SameElf(d[..64], d, 400, 400);
  }

  lemma {:induction false} PartitionPrograms()
    ensures ElfInside(SMALL_ELF, 400)
    ensures ProgramAt(SmallPartition(), SMALL_ELF, 0) == Some(Range(128, 240))
    ensures ProgramAt(SmallPartition(), SMALL_ELF, 1) == Some(Range(380, 0))
    ensures Segment(SmallPartition(), SMALL_ELF, 0) == Some(SmallImage(240))
    ensures Segment(SmallPartition(), SMALL_ELF, 1) == Some([])
  {
    FirstProgram();
    SecondProgram();
    PartitionImage();
    assert HeaderAt(SMALL_ELF, 0) == 64 && HeaderAt(SMALL_ELF, 1) == 96;
  }

  lemma {:induction false} PartitionSegments(d: seq<Byte>, first: seq<Byte>)
    requires ElfInside(SMALL_ELF, |d|)
    requires Segment(d, SMALL_ELF, 0) == Some(first) && Segment(d, SMALL_ELF, 1) == Some([])
    ensures Segments(d, SMALL_ELF, 0) == Some([first, []])
  {
    SegmentsNext(d, SMALL_ELF, 0);
    SegmentsNext(d, SMALL_ELF, 1);
    var all: seq<seq<Byte>> := Segments(d, SMALL_ELF, 0).value;
    var rest: seq<seq<Byte>> := all[1..];
    assert rest == Segments(d, SMALL_ELF, 1).value && rest[0] == [] && |rest[1..]| == 0;
    assert all[1] == rest[0];
    assert all == [first, []];
  }

  /** The whole partition has a definite verdict; read up to its extent it has none. */
  lemma {:induction false} TruncationLosesVerdict(lzma: Lzma)
    ensures var d := SmallPartition();
      && ReadExtent(d) == Some(368)
      && InspectAbl(lzma, d) == NoEfispLoader && InspectAbl(lzma, d[..368]) == Unknown
  {
    var d := SmallPartition();
    PartitionElf();
    PartitionPrograms();
    PartitionSegments(d, SmallImage(240));
    assert ProgramsExtent(d, SMALL_ELF, 2, 368) == Some(368);
    assert ProgramsExtent(d, SMALL_ELF, 1, 368) == Some(368);
    assert ReadExtent(d) == Some(368);
    assert !EmptySegmentsInside(d, SMALL_ELF, 368, 1);
    SmallVerdict(lzma);
    var roots: seq<seq<Byte>> := [SmallImage(240), []];
    assert |roots[1..]| == 1 && roots[1..][0] == [] && |roots[1..][1..]| == 0;
    assert ScanAll(lzma, START, roots) == ScanAll(lzma, AblScan.Visit(lzma, START, SmallImage(240), 0), roots[1..]);
    TruncatedReadKeepsVerdict(lzma, d);
  }
}
