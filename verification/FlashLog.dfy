/**
  The rotating log of a flash recording: two bounded segment files that keep the most recent output, and the
  archive entry made from them.
 */
module FlashLog {
  import opened Wrappers
  import opened Bytes

  /** Bytes of one segment file, for a log limited to `limit` bytes. */
  function SegmentLimit(limit: nat): nat {
    if limit / 2 > 1 then limit / 2 else 1
  }

  // ----- the log, byte by byte -----

  /** Both segment files, the bytes no longer in either, and how often the log has rotated. */
  datatype Files = Files(lost: seq<Byte>, previous: seq<Byte>, current: seq<Byte>, turns: nat)

  const EMPTY := Files([], [], [], 0)

  /** The full current segment replaces the previous one. */
  function Rotate(f: Files): Files {
    Files(f.lost + f.previous, f.current, [], f.turns + 1)
  }

  function Put(segment: nat, f: Files, b: Byte): Files {
    var g := if |f.current| == segment then Rotate(f) else f;
    g.(current := g.current + [b])
  }

  function Feed(segment: nat, f: Files, data: seq<Byte>): Files {
    if |data| == 0 then f else Put(segment, Feed(segment, f, data[..|data| - 1]), data[|data| - 1])
  }

  /** How the stream is cut into chunks makes no difference. */
  lemma {:induction false} FeedChunks(segment: nat, f: Files, a: seq<Byte>, b: seq<Byte>)
    ensures Feed(segment, f, a + b) == Feed(segment, Feed(segment, f, a), b)
  {
    if |b| == 0 {
      assert a + b == a;
    } else {
      FeedChunks(segment, f, a, b[..|b| - 1]);
      assert (a + b)[..|a + b| - 1] == a + b[..|b| - 1];
    }
  }

  /** What the two files hold of the stream fed so far. */
  ghost predicate HoldsTail(segment: nat, f: Files, stream: seq<Byte>) {
    && stream == f.lost + f.previous + f.current
    && |f.current| <= segment
    && (f.turns == 0 ==> f.lost == [] && f.previous == [])
    && (f.turns == 1 ==> f.lost == [])
    && (f.turns > 1 ==> f.lost != [])
    && (f.turns > 0 ==> |f.previous| == segment && |f.current| > 0)
  }

  lemma {:induction false} PutHoldsTail(segment: nat, f: Files, stream: seq<Byte>, b: Byte)
    requires segment > 0 && HoldsTail(segment, f, stream)
    ensures HoldsTail(segment, Put(segment, f, b), stream + [b])
  {
    var g := if |f.current| == segment then Rotate(f) else f;
    assert stream == g.lost + g.previous + g.current;
    assert stream + [b] == g.lost + g.previous + (g.current + [b]);
  }

  lemma {:induction false} FeedHoldsTail(segment: nat, data: seq<Byte>)
    requires segment > 0
    ensures HoldsTail(segment, Feed(segment, EMPTY, data), data)
  {
    if |data| > 0 {
      FeedHoldsTail(segment, data[..|data| - 1]);
      PutHoldsTail(segment, Feed(segment, EMPTY, data[..|data| - 1]), data[..|data| - 1], data[|data| - 1]);
      assert data == data[..|data| - 1] + [data[|data| - 1]];
    }
  }

  /**
    For every stream: the files hold a suffix of it, all of it or more than one segment, never more than two
    segments; and more than one rotation happened exactly when bytes were lost.
   */
  lemma {:induction false} TailIsSuffix(segment: nat, stream: seq<Byte>)
    requires segment > 0
    ensures
      var f := Feed(segment, EMPTY, stream);
      var kept := f.previous + f.current;
      && |kept| <= |stream| && kept == stream[|stream| - |kept|..]
      && (kept == stream || |kept| > segment)
      && |kept| <= 2 * segment
      && (f.turns > 1 <==> kept != stream)
  {
    FeedHoldsTail(segment, stream);
    var f := Feed(segment, EMPTY, stream);
    LostAndKept(f.lost, f.previous, f.current);
  }

  lemma {:induction false} LostAndKept(lost: seq<Byte>, previous: seq<Byte>, current: seq<Byte>)
    ensures var stream, kept := lost + previous + current, previous + current;
      stream == lost + kept && stream[|lost|..] == kept && (kept != stream <==> lost != [])
  {
    var stream, kept := lost + previous + current, previous + current;
    assert stream == lost + kept;
    assert lost != [] ==> |kept| < |stream|;
  }

  const COUNTER: nat := 0x1_0000_0000

  /** How often a stream of that length rotates a segment of that size. */
  function Turns(segment: nat, length: nat): nat
    requires segment > 0
  {
    if length == 0 then 0 else (length - 1) / segment
  }

  lemma {:induction false} FeedPosition(segment: nat, stream: seq<Byte>)
    requires segment > 0 && |stream| > 0
    ensures
      var f := Feed(segment, EMPTY, stream);
      f.turns * segment + |f.current| == |stream| && 0 < |f.current| <= segment
    decreases |stream|
  {
    var init := stream[..|stream| - 1];
    if |init| > 0 {
      FeedPosition(segment, init);
      var f := Feed(segment, EMPTY, init);
      assert (f.turns + 1) * segment == f.turns * segment + segment;
    } else {
      assert Feed(segment, EMPTY, init) == EMPTY;
    }
  }

  /** The number of rotations is a function of the length alone. */
  lemma {:induction false} TurnsByLength(segment: nat, stream: seq<Byte>)
    requires segment > 0
    ensures Feed(segment, EMPTY, stream).turns == Turns(segment, |stream|)
  {
    if |stream| > 0 {
      FeedPosition(segment, stream);
      var f := Feed(segment, EMPTY, stream);
      QuotientIs(|stream| - 1, segment, f.turns, |f.current| - 1);
    }
  }

  lemma {:induction false} QuotientIs(x: nat, d: nat, q: nat, r: nat)
    requires x == q * d + r && r < d
    ensures x / d == q
  {
    MultiplesApart(x / d, q, d);
    MultiplesApart(q, x / d, d);
    assert x / d * d <= x < x / d * d + d;
  }

  lemma {:induction false} MultiplesApart(k: nat, q: nat, d: nat)
    ensures k < q ==> k * d + d <= q * d
  {
    if k + 1 < q {
      MultiplesApart(k, q - 1, d);
    }
    if k < q {
      assert q * d == (q - 1) * d + d;
    }
  }

  /** Whether the 32-bit rotation counter tells truncation right, by the length of the stream. */
  predicate CounterIsRight(segment: nat, length: nat)
    requires segment > 0
  {
    Turns(segment, length) < COUNTER || Turns(segment, length) % COUNTER > 1
  }

  /** `Truncated` says whether bytes were lost if and only if the length has not wrapped the counter onto 0 or 1. */
  lemma {:induction false} TruncatedIff(segment: nat, stream: seq<Byte>)
    requires segment > 0
    ensures
      var f := Feed(segment, EMPTY, stream);
      var truncated := f.turns % COUNTER > 1;
      (truncated <==> f.previous + f.current != stream) <==> CounterIsRight(segment, |stream|)
  {
    TailIsSuffix(segment, stream);
    TurnsByLength(segment, stream);
    CounterTells(Turns(segment, |stream|));
  }

  lemma {:induction false} CounterTells(turns: nat)
    ensures (turns % COUNTER > 1 <==> turns > 1) <==> (turns < COUNTER || turns % COUNTER > 1)
  {
  }

  /** One byte past the wrap: almost everything is lost and `Truncated` denies it. */
  lemma {:induction false} WrappedCounterDenies(segment: nat, stream: seq<Byte>)
    requires segment > 0 && |stream| == COUNTER * segment + 1
    ensures
      var f := Feed(segment, EMPTY, stream);
      f.previous + f.current != stream && f.turns % COUNTER == 0 && !CounterIsRight(segment, |stream|)
  {
    TailIsSuffix(segment, stream);
    TurnsByLength(segment, stream);
    QuotientIs(|stream| - 1, segment, COUNTER, 0);
  }

  // ----- the log in place -----

  /** Feeding a whole run of bytes that fits the current segment. */
  lemma {:induction false} FeedFits(segment: nat, f: Files, data: seq<Byte>)
    requires |f.current| + |data| <= segment
    ensures Feed(segment, f, data) == f.(current := f.current + data)
  {
    if |data| > 0 {
      FeedFits(segment, f, data[..|data| - 1]);
      assert f.current + data == f.current + data[..|data| - 1] + [data[|data| - 1]];
    } else {
      assert f.current + data == f.current;
    }
  }

  /** A full segment rotates when, and only when, another byte arrives. */
  lemma {:induction false} FeedFull(segment: nat, f: Files, data: seq<Byte>)
    requires |f.current| == segment > 0 && |data| > 0
    ensures Feed(segment, f, data) == Feed(segment, Rotate(f), data)
  {
    if |data| > 1 {
      FeedFull(segment, f, data[..|data| - 1]);
    } else {
      assert data[..0] == [];
    }
  }

  class Tail {
    const segment: nat
    var size: nat
    var isOpen: bool
    var rotations: nat
    var files: Files

    ghost predicate Valid()
      reads this
    {
      && segment > 0 && rotations == files.turns % COUNTER
      && (isOpen ==> size == |files.current| <= segment)
    }

    /** `works` says, here and below, that no file operation fails. */
    constructor (limit: nat, works: bool)
      ensures Valid() && files == EMPTY && segment == SegmentLimit(limit)
      ensures works ==> isOpen
    {
      segment := SegmentLimit(limit);
      size, rotations, files := 0, 0, EMPTY;
      var usable: bool := *;
      isOpen := usable || works;
    }

    /** Appends a run of bytes; a failed write may have stored any part of it. */
    method Write(data: seq<Byte>, works: bool) returns (ok: bool, ghost stored: seq<Byte>)
      requires Valid() && isOpen && size + |data| <= segment
      modifies this`files
      ensures works ==> ok
      ensures stored <= data && (ok ==> stored == data)
      ensures files == Feed(segment, old(files), stored)
      ensures files == old(files).(current := old(files).current + stored)
    {
      ok := *;
      ok := ok || works;
      var n := |data|;
      if !ok {
        n := *;
        if n < 0 || n > |data| { n := 0; }
      }
      stored := data[..n];
      FeedFits(segment, files, stored);
      files := files.(current := files.current + data[..n]);
    }

    /** The current segment becomes the previous one; false when a file operation fails. */
    method Turn(works: bool) returns (ok: bool)
      requires Valid() && isOpen && size == segment
      modifies this`size, this`isOpen, this`rotations, this`files
      ensures Valid() && ok == isOpen && (works ==> ok)
      ensures files == old(files) || files == Rotate(old(files))
      ensures ok ==> files == Rotate(old(files)) && size == 0
    {
      isOpen := false;
      var renamed: bool := *;
      if !renamed && !works { return false; }
      rotations := (rotations + 1) % COUNTER;
      files, size := Rotate(files), 0;
      var usable: bool := *;
      isOpen := usable || works;
      ok := isOpen;
    }

    /** One round of the loop: rotates if the segment is full, then writes what fits. */
    method AddSome(data: seq<Byte>, works: bool) returns (n: nat, ghost stored: seq<Byte>)
      requires Valid() && isOpen && |data| > 0
      modifies this`size, this`isOpen, this`rotations, this`files
      ensures Valid() && stored <= data && (works ==> isOpen)
      ensures isOpen ==> 0 < n <= |data| && stored == data[..n] && files == Feed(segment, old(files), stored)
      ensures !isOpen ==>
        files == Feed(segment, old(files), stored) || files == Rotate(Feed(segment, old(files), stored))
    {
      n, stored := 0, [];
      ghost var before := files;
      if size == segment {
        var turned := Turn(works);
        if !turned { return; }
      }
      n := if |data| < segment - size then |data| else segment - size;
      var ok;
      ok, stored := Write(data[..n], works);
      if |before.current| == segment && |stored| > 0 {
        FeedFull(segment, before, stored);
      }
      if ok {
        size := size + n;
      } else {
        isOpen := false;
      }
    }

    /**
      Without a failure the files become what feeding the bytes one by one gives; a failure only cuts the input short.
     */
    method Add(data: seq<Byte>, works: bool) returns (ghost taken: nat)
      requires Valid()
      modifies this`size, this`isOpen, this`rotations, this`files
      ensures Valid()
      ensures works && old(isOpen) ==> isOpen
      ensures taken <= |data|
      ensures isOpen ==> files == Feed(segment, old(files), data)
      ensures files == Feed(segment, old(files), data[..taken]) ||
        files == Rotate(Feed(segment, old(files), data[..taken]))
    {
      var at := 0;
      while isOpen && at < |data|
        invariant Valid() && 0 <= at <= |data| && (works && old(isOpen) ==> isOpen)
        invariant files == Feed(segment, old(files), data[..at])
        decreases |data| - at
      {
        var n, stored := AddSome(data[at..], works);
        assert data[..at] + stored == data[..at + |stored|];
        FeedChunks(segment, old(files), data[..at], stored);
        if !isOpen {
          return at + |stored|;
        }
        at := at + n;
      }
      assert data[..|data|] == data;
      taken := at;
    }

    method Truncated() returns (t: bool)
      requires Valid()
      ensures t <==> files.turns % COUNTER > 1
    {
      t := rotations > 1;
    }
  }

  // ----- the archive -----

  datatype Log = Logcat | Recovery | Kernel

  const MIB: nat := 1024 * 1024

  /** The size limits of manual and of flash recordings. */
  function LogLimit(manual: bool, log: Log): nat {
    match log
    case Logcat => if manual then 128 * MIB else 16 * MIB
    case Recovery => if manual then 32 * MIB else 8 * MIB
    case Kernel => if manual then 8 * MIB else 2 * MIB
  }

  /** The most an archive entry takes of its sources. */
  function EntryMaximum(manual: bool, log: Log): nat {
    if manual then LogLimit(true, log) else 32 * MIB
  }

  function Joined(sources: seq<Option<seq<Byte>>>): seq<Byte> {
    if |sources| == 0 then [] else
      Joined(sources[..|sources| - 1]) + if sources[|sources| - 1].Some? then sources[|sources| - 1].value else []
  }

  function Take(data: seq<Byte>, maximum: nat): seq<Byte> {
    if |data| <= maximum then data else data[..maximum]
  }

  /** Copies the sources one after the other, in reads of any length, up to `maximum` bytes. */
  method AddEntry(sources: seq<Option<seq<Byte>>>, maximum: nat, works: bool) returns (okay: bool, entry: seq<Byte>)
    ensures works ==> okay
    ensures okay ==> entry == Take(Joined(sources), maximum)
  {
    okay, entry := true, [];
    var remaining := maximum;
    for i := 0 to |sources|
      invariant 0 <= remaining <= maximum && (works ==> okay)
      invariant okay ==> entry == Take(Joined(sources[..i]), maximum) && remaining == maximum - |entry|
    {
      assert sources[..i + 1][..i] == sources[..i];
      if !okay { return; }
      if sources[i].None? { continue; }
      var regular: bool := *;
      if !regular && !works { return false, entry; }
      okay, entry, remaining := CopySource(sources[i].value, entry, remaining, works);
    }
    assert sources[..|sources|] == sources;
  }

  method CopySource(input: seq<Byte>, start: seq<Byte>, room: nat, works: bool)
    returns (okay: bool, entry: seq<Byte>, remaining: nat)
    ensures works ==> okay
    ensures remaining <= room
    ensures okay ==> entry == start + Take(input, room) && remaining == room - |Take(input, room)|
  {
    okay, entry, remaining := true, start, room;
    var offset := 0;
    while okay && remaining > 0
      invariant 0 <= offset <= |input| && remaining == room - offset && (works ==> okay)
      invariant okay ==> entry == start + input[..offset]
      decreases okay, |input| - offset
    {
      if offset == |input| { break; }
      var count: nat := *;
      if !(0 < count <= 65536 && count <= remaining && offset + count <= |input|) { count := 1; }
      assert offset + count <= |input|;
      var written: bool := *;
      entry := entry + input[offset..offset + count];
      assert input[..offset] + input[offset..offset + count] == input[..offset + count];
      offset, remaining, okay := offset + count, remaining - count, written || works;
    }
    assert okay ==> Take(input, room) == input[..offset];
  }

  /** The archive maximum is never below what the two segments can hold, so an entry is the whole kept tail. */
  lemma {:induction false} ArchiveKeepsWholeTail(manual: bool, log: Log, stream: seq<Byte>)
    ensures
      var f := Feed(SegmentLimit(LogLimit(manual, log)), EMPTY, stream);
      Take(Joined([Some(f.previous), Some(f.current)]), EntryMaximum(manual, log)) == f.previous + f.current
  {
    var segment := SegmentLimit(LogLimit(manual, log));
    TailIsSuffix(segment, stream);
    var f := Feed(segment, EMPTY, stream);
    var one: seq<Option<seq<Byte>>> := [Some(f.previous)];
    var two := one + [Some(f.current)];
    assert two[..1] == one && |one[..0]| == 0;
    assert Joined(one) == f.previous;
    assert Joined(two) == f.previous + f.current;
  }
}
