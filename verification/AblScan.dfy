/**
  The budgeted scan of an ABL image for the EFISP loader: every EFI application in a buffer is weighed, then
  every LZMA section is decoded and scanned in turn.
 */
module AblScan {
  import opened Wrappers
  import opened Bytes
  import opened AblImage

  const MAX_DECODED: nat := 16 * 1024 * 1024
  const BUDGET: nat := 64 * 1024 * 1024
  const MAX_DEPTH: nat := 4
  const MAX_ATTEMPTS: nat := 8

  datatype AblStatus = Unknown | EfispLoader | NoEfispLoader

  /** The partition name "efisp" in UTF-16 with its terminator. */
  const NEEDLE: seq<Byte> := [0x65, 0, 0x66, 0, 0x69, 0, 0x73, 0, 0x70, 0, 0, 0]

  /** The GUID of an LZMA-compressed firmware section. */
  const LZMA_GUID: seq<Byte> :=
    [0x98, 0x58, 0x4e, 0xee, 0x14, 0x39, 0x59, 0x42, 0x9d, 0x6e, 0xdc, 0x7b, 0xd7, 0x94, 0x03, 0xcf]

  predicate NeedleAt(data: seq<Byte>, k: nat) {
    k + |NEEDLE| <= |data| && data[k..k + |NEEDLE|] == NEEDLE
  }

  predicate HasNeedle(data: seq<Byte>) {
    exists k :: 0 <= k <= |data| && NeedleAt(data, k)
  }

  // ----- the LZMA library -----

  datatype Mark = FinishedWithMark | MaybeFinishedWithoutMark | OtherMark

  datatype Decoded = Decoded(ok: bool, mark: Mark, output: seq<Byte>)

  /** The decoder: the dictionary size of five property bytes, and decoding up to a limit. */
  datatype Lzma = Lzma(dictionary: seq<Byte> -> Option<nat>, decode: (seq<Byte>, seq<Byte>, nat) -> Decoded)

  const UNDECLARED: nat := 0xffff_ffff_ffff_ffff

  /** One decoding attempt with a 13- or 5-byte stream header. */
  function TryHeader(lzma: Lzma, compressed: seq<Byte>, header: nat): Option<seq<Byte>>
    requires |compressed| >= 6 && (header == 13 || header == 5)
  {
    if |compressed| <= header then None else
      var declared := if header == 13 then Le64(compressed, 5) else UNDECLARED;
      if declared != UNDECLARED && (declared < 64 || declared > MAX_DECODED) then None else
        var limit := if declared == UNDECLARED then MAX_DECODED else declared;
        var r := lzma.decode(compressed[..5], compressed[header..], limit);
        var complete := r.mark == FinishedWithMark ||
          (declared != UNDECLARED && |r.output| == declared && r.mark == MaybeFinishedWithoutMark);
        if !r.ok || !complete || |r.output| < 64 then None else Some(r.output)
  }

  function DecodeSection(lzma: Lzma, compressed: seq<Byte>): Option<seq<Byte>>
    requires |compressed| >= 6
  {
    var long := TryHeader(lzma, compressed, 13);
    if long.Some? then long else TryHeader(lzma, compressed, 5)
  }

  // ----- the scan as a function of its state -----

  /** A buffer that was scanned, and how deep it was. */
  datatype Buffer = Buffer(data: seq<Byte>, depth: nat)

  /** The scan's fields, with the history of what it looked at. */
  datatype State = State(best: nat, attempts: nat, total: nat, status: AblStatus, exhausted: bool,
                         seen: seq<Buffer>, decoded: nat)

  const START := State(0, 0, 0, Unknown, false, [], 0)

  /** One application met by the scan: its size and whether it holds the needle. */
  datatype App = App(size: nat, loader: bool)

  /** The application at offset `i`, if there is one. */
  function AppAt(data: seq<Byte>, i: nat): Option<App>
    requires i + 64 <= |data|
  {
    if data[i] != 0x4d || data[i + 1] != 0x5a then None else
      var size := PeSize(data[i..]);
      if 0 < size <= |data| - i then Some(App(size, HasNeedle(data[i..i + size]))) else None
  }

  function ToSeq(app: Option<App>): seq<App> {
    if app.None? then [] else [app.value]
  }

  /** The applications of a buffer from offset `i`, in order. */
  function AppsFrom(data: seq<Byte>, i: nat): seq<App>
    decreases |data| - i
  {
    if i + 64 > |data| then [] else ToSeq(AppAt(data, i)) + AppsFrom(data, i + 1)
  }

  /** A larger application than any before decides the status. */
  function Weigh(s: State, app: App): State {
    if app.size <= s.best then s else s.(best := app.size, status := StatusOf(app))
  }

  function WeighAll(s: State, apps: seq<App>): State
    decreases |apps|
  {
    if |apps| == 0 then s else WeighAll(Weigh(s, apps[0]), apps[1..])
  }

  /** An LZMA section: malformed, or well formed with what it decodes to. */
  datatype Section = Malformed | Packed(output: Option<seq<Byte>>)

  function SectionAt(lzma: Lzma, data: seq<Byte>, at: nat): seq<Section>
    requires 4 <= at && at + 20 <= |data|
  {
    if data[at..at + 16] != LZMA_GUID then [] else
      var section := at - 4;
      var size := data[section] as int + 0x100 * (data[section + 1] as int) + 0x1_0000 * (data[section + 2] as int);
      var offset := Le16(data, at + 16);
      if data[section + 3] != 2 || size < 24 || size > |data| - section || offset < 24 || offset >= size then
        [Malformed]
      else [Packed(Unpacked(lzma, data[section + offset..section + size]))]
  }

  /** The decoded contents of a section, or None when the scan gives up on it. */
  function Unpacked(lzma: Lzma, compressed: seq<Byte>): Option<seq<Byte>> {
    if |compressed| < 6 then None else
      var dictionary := lzma.dictionary(compressed[..5]);
      if dictionary.None? || dictionary.value > MAX_DECODED then None else DecodeSection(lzma, compressed)
  }

  /** The LZMA sections of a buffer from offset `at`, in order. */
  function SectionsFrom(lzma: Lzma, data: seq<Byte>, at: nat): seq<Section>
    requires 4 <= at
    decreases |data| - at
  {
    if at + 20 > |data| then [] else SectionAt(lzma, data, at) + SectionsFrom(lzma, data, at + 1)
  }

  /** Decodes and scans the sections in turn, within the attempt limit. */
  function UnpackAll(lzma: Lzma, s: State, sections: seq<Section>, depth: nat): State
    requires depth <= MAX_DEPTH
    decreases MAX_DEPTH + 1 - depth, 0, |sections|
  {
    if |sections| == 0 then s
    else if sections[0].Malformed? then UnpackAll(lzma, s.(exhausted := true), sections[1..], depth)
    else if s.attempts + 1 > MAX_ATTEMPTS then s.(attempts := s.attempts + 1, exhausted := true)
    else UnpackAll(lzma, UnpackOne(lzma, s, sections[0].output, depth), sections[1..], depth)
  }

  function UnpackOne(lzma: Lzma, s: State, output: Option<seq<Byte>>, depth: nat): State
    requires depth <= MAX_DEPTH
    decreases MAX_DEPTH - depth, 2, 0
  {
    if output.None? then Counted(s).(exhausted := true) else Visit(lzma, Counted(s), output.value, depth + 1)
  }

  /** One more decoding attempt. */
  function Counted(s: State): State {
    s.(attempts := s.attempts + 1, decoded := s.decoded + 1)
  }

  /** The state once a buffer is counted and its applications are weighed. */
  function Opened(s: State, data: seq<Byte>, depth: nat): State {
    WeighAll(s.(total := s.total + |data|, seen := s.seen + [Buffer(data, depth)]), AppsFrom(data, 0))
  }

  function Visit(lzma: Lzma, s: State, data: seq<Byte>, depth: nat): State
    decreases if depth > MAX_DEPTH then 0 else MAX_DEPTH + 1 - depth, 1, 0
  {
    if depth > MAX_DEPTH || |data| > BUDGET - s.total then s.(exhausted := true) else
      UnpackAll(lzma, Opened(s, data, depth), SectionsFrom(lzma, data, 4), depth)
  }

  // ----- what the verdict means -----

  /** All applications of all scanned buffers, in the order they were met. */
  function Apps(seen: seq<Buffer>): seq<App> {
    if |seen| == 0 then [] else Apps(seen[..|seen| - 1]) + AppsFrom(seen[|seen| - 1].data, 0)
  }

  /** The application that decides: a later one must be strictly larger. */
  function Leader(apps: seq<App>): Option<App> {
    if |apps| == 0 then None else
      var before, last := Leader(apps[..|apps| - 1]), apps[|apps| - 1];
      if before.None? || last.size > before.value.size then Some(last) else before
  }

  /** `best` and `status` are those of the deciding application. */
  predicate Decides(leader: Option<App>, best: nat, status: AblStatus) {
    if leader.None? then best == 0 && status == Unknown
    else best == leader.value.size && status == StatusOf(leader.value)
  }

  function StatusOf(app: App): AblStatus {
    if app.loader then EfispLoader else NoEfispLoader
  }

  predicate IsFirstLargest(apps: seq<App>, k: nat) {
    && k < |apps|
    && (forall j :: 0 <= j < |apps| ==> apps[j].size <= apps[k].size)
    && forall j :: 0 <= j < k ==> apps[j].size < apps[k].size
  }

  ghost predicate Positive(apps: seq<App>) {
    forall i :: 0 <= i < |apps| ==> apps[i].size > 0
  }

  /** The deciding application is the first one of maximal size. */
  lemma {:induction false} LeaderIsFirstLargest(apps: seq<App>) returns (k: nat)
    requires |apps| > 0
    ensures IsFirstLargest(apps, k) && Leader(apps) == Some(apps[k])
  {
    var init := apps[..|apps| - 1];
    if |init| == 0 {
      k := 0;
    } else {
      k := LeaderIsFirstLargest(init);
      if apps[|apps| - 1].size > init[k].size {
        k := |apps| - 1;
      }
    }
  }

  lemma {:induction false} LeaderNext(apps: seq<App>, app: App)
    ensures Leader(apps + [app]) ==
      if Leader(apps).None? || app.size > Leader(apps).value.size then Some(app) else Leader(apps)
  {
    assert (apps + [app])[..|apps|] == apps;
  }

  lemma {:induction false} AppsPositive(data: seq<Byte>, i: nat)
    ensures Positive(AppsFrom(data, i))
    decreases |data| - i
  {
    if i + 64 <= |data| {
      AppsPositive(data, i + 1);
    }
  }

  /** The applications `more` of one buffer, taken into account after the applications `apps` before it. */
  lemma {:induction false} WeighAllIsVerdict(s: State, apps: seq<App>, more: seq<App>)
    requires Decides(Leader(apps), s.best, s.status) && Positive(more)
    ensures Decides(Leader(apps + more), WeighAll(s, more).best, WeighAll(s, more).status)
    decreases |more|
  {
    if |more| == 0 {
      assert apps + more == apps;
    } else {
      LeaderNext(apps, more[0]);
      WeighAllIsVerdict(Weigh(s, more[0]), apps + [more[0]], more[1..]);
      assert apps + more == apps + [more[0]] + more[1..];
    }
  }

  lemma {:induction false} WeighAllFrame(s: State, more: seq<App>)
    ensures WeighAll(s, more) == s.(best := WeighAll(s, more).best, status := WeighAll(s, more).status)
    decreases |more|
  {
    if |more| > 0 {
      WeighAllFrame(Weigh(s, more[0]), more[1..]);
    }
  }

  function Volume(seen: seq<Buffer>): nat {
    if |seen| == 0 then 0 else Volume(seen[..|seen| - 1]) + |seen[|seen| - 1].data|
  }

  /** The byte, depth and decoding limits. */
  ghost predicate WithinBudget(s: State) {
    && s.total == Volume(s.seen) <= BUDGET
    && (forall i :: 0 <= i < |s.seen| ==> s.seen[i].depth <= MAX_DEPTH)
    && s.decoded <= MAX_ATTEMPTS && (s.attempts <= MAX_ATTEMPTS ==> s.decoded == s.attempts)
    && (s.attempts > MAX_ATTEMPTS ==> s.exhausted)
  }

  /** The status is the needle test on the deciding application of all scanned buffers. */
  ghost predicate IsVerdict(s: State) {
    Decides(Leader(Apps(s.seen)), s.best, s.status)
  }

  /** What holds of the scan after every step. */
  ghost predicate Sound(s: State) {
    WithinBudget(s) && IsVerdict(s)
  }

  lemma {:induction false} UnpackAllIsSound(lzma: Lzma, s: State, sections: seq<Section>, depth: nat)
    requires depth <= MAX_DEPTH && Sound(s)
    ensures Sound(UnpackAll(lzma, s, sections, depth))
    decreases MAX_DEPTH + 1 - depth, 0, |sections|
  {
    if |sections| > 0 {
      if sections[0].Malformed? {
        UnpackAllIsSound(lzma, s.(exhausted := true), sections[1..], depth);
      } else if s.attempts + 1 <= MAX_ATTEMPTS {
        var r := UnpackOne(lzma, s, sections[0].output, depth);
        UnpackOneIsSound(lzma, s, sections[0].output, depth, r);
        UnpackAllIsSound(lzma, r, sections[1..], depth);
      }
    }
  }

  lemma {:induction false} CountedIsSound(s: State)
    requires Sound(s) && s.attempts < MAX_ATTEMPTS
    ensures Sound(Counted(s)) && Sound(Counted(s).(exhausted := true))
  {
  }

  lemma {:induction false} UnpackOneIsSound(lzma: Lzma, s: State, output: Option<seq<Byte>>, depth: nat, r: State)
    requires depth <= MAX_DEPTH && Sound(s) && s.attempts < MAX_ATTEMPTS && r == UnpackOne(lzma, s, output, depth)
    ensures Sound(r)
    decreases MAX_DEPTH - depth, 2, 0
  {
    CountedIsSound(s);
    if output.Some? {
      VisitIsSound(lzma, Counted(s), output.value, depth + 1);
    }
  }

  /** Opening a buffer and weighing its applications keeps the verdict. */
  lemma {:induction false} OpenedIsVerdict(s: State, s1: State, data: seq<Byte>, depth: nat, apps: seq<App>)
    requires IsVerdict(s) && s1.seen == s.seen + [Buffer(data, depth)] && s1.best == s.best && s1.status == s.status
    requires apps == AppsFrom(data, 0)
    ensures IsVerdict(WeighAll(s1, apps))
  {
    AppsPositive(data, 0);
    WeighAllIsVerdict(s1, Apps(s.seen), apps);
    WeighAllFrame(s1, apps);
    AppsNext(s.seen, Buffer(data, depth));
  }

  lemma {:induction false} AppsNext(seen: seq<Buffer>, b: Buffer)
    ensures Apps(seen + [b]) == Apps(seen) + AppsFrom(b.data, 0)
  {
    assert (seen + [b])[..|seen|] == seen;
  }

  lemma {:induction false} OpenedWithinBudget(s: State, data: seq<Byte>, depth: nat, r: State)
    requires WithinBudget(s) && depth <= MAX_DEPTH && |data| <= BUDGET - s.total
    requires r == s.(total := s.total + |data|, seen := s.seen + [Buffer(data, depth)],
                     best := r.best, status := r.status)
    ensures WithinBudget(r)
  {
    VolumeNext(s.seen, Buffer(data, depth));
  }

  lemma {:induction false} VolumeNext(seen: seq<Buffer>, b: Buffer)
    ensures Volume(seen + [b]) == Volume(seen) + |b.data|
  {
    assert (seen + [b])[..|seen|] == seen;
  }

  lemma {:induction false} OpenedIsSound(s: State, data: seq<Byte>, depth: nat, r: State)
    requires Sound(s) && depth <= MAX_DEPTH && |data| <= BUDGET - s.total && r == Opened(s, data, depth)
    ensures Sound(r)
  {
    var s1 := s.(total := s.total + |data|, seen := s.seen + [Buffer(data, depth)]);
    var apps := AppsFrom(data, 0);
    WeighAllFrame(s1, apps);
    OpenedWithinBudget(s, data, depth, r);
    OpenedIsVerdict(s, s1, data, depth, apps);
  }

  /**
    Budget and verdict: a scan stays within its byte, depth and decoding limits, and its status is the needle
    test on the first application of maximal size among all buffers it scanned.
   */
  lemma {:induction false} VisitIsSound(lzma: Lzma, s: State, data: seq<Byte>, depth: nat)
    requires Sound(s)
    ensures Sound(Visit(lzma, s, data, depth))
    decreases if depth > MAX_DEPTH then 0 else MAX_DEPTH + 1 - depth, 1, 0
  {
    if depth <= MAX_DEPTH && |data| <= BUDGET - s.total {
      OpenedIsSound(s, data, depth, Opened(s, data, depth));
      UnpackAllIsSound(lzma, Opened(s, data, depth), SectionsFrom(lzma, data, 4), depth);
    }
  }

  /** The verdict of a sound scan: Unknown without any application, else the needle test on the first largest one. */
  lemma {:induction false} VerdictIsFirstLargest(s: State) returns (k: nat)
    requires Sound(s)
    ensures Apps(s.seen) == [] ==> s.status == Unknown
    ensures Apps(s.seen) != [] ==> IsFirstLargest(Apps(s.seen), k) && s.status == StatusOf(Apps(s.seen)[k])
  {
    k := 0;
    if Apps(s.seen) != [] {
      k := LeaderIsFirstLargest(Apps(s.seen));
    }
  }
}
