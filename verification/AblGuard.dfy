/**
  The ABL guard: a boot baseline of per-slot samples, a digest-keyed cache of inspections, and a warning on exit
  when a slot has lost its EFISP loader, silenced only by acknowledging that exact state.
 */
module AblGuard {
  import opened Wrappers
  import opened Bytes
  import opened AblImage
  import opened AblScan
  import opened AblInspect
  import opened AblExtent

  datatype AblSample = AblSample(name: string, digest: string, status: AblStatus)

  datatype AblWarning = AblWarning(text: string, token: string)

  /** The tools of an inspection: the LZMA library and the digest, in hexadecimal. */
  datatype Tools = Tools(lzma: Lzma, hash: seq<Byte> -> string)

  /** The partitions found: their contents, or None when they cannot be read. */
  type World = map<string, Option<seq<Byte>>>

  const SLOTS: seq<string> := ["abl_a", "abl_b", "abl"]

  // ----- one sample -----

  /** The bytes that are hashed and inspected, when the partition can be read. */
  function Readable(contents: Option<seq<Byte>>): Option<seq<Byte>> {
    if contents.None? || |contents.value| < 64 || |contents.value| > MAX_INPUT then None else
      var extent := ReadExtent(contents.value);
      if extent.None? || extent.value > |contents.value| then None else Some(contents.value[..extent.value])
  }

  /** The status of the first cached sample of that name and digest. */
  function Cached(cache: seq<AblSample>, name: string, digest: string): Option<AblStatus> {
    if |cache| == 0 then None
    else if cache[0].name == name && cache[0].digest == digest then Some(cache[0].status)
    else Cached(cache[1..], name, digest)
  }

  function ReadAbl(tools: Tools, contents: Option<seq<Byte>>, name: string, cache: seq<AblSample>): AblSample {
    var bytes := Readable(contents);
    if bytes.None? then AblSample(name, "", Unknown) else
      var digest := tools.hash(bytes.value);
      var known := Cached(cache, name, digest);
      AblSample(name, digest, if known.Some? then known.value else InspectAbl(tools.lzma, bytes.value))
  }

  function DiscoverFrom(tools: Tools, world: World, cache: seq<AblSample>, i: nat): seq<AblSample>
    requires i <= |SLOTS|
    decreases |SLOTS| - i
  {
    if i == |SLOTS| then [] else
      (if SLOTS[i] in world then [ReadAbl(tools, world[SLOTS[i]], SLOTS[i], cache)] else [])
      + DiscoverFrom(tools, world, cache, i + 1)
  }

  lemma {:induction false} DiscoverStep(tools: Tools, world: World, cache: seq<AblSample>, i: nat,
                                        samples: seq<AblSample>)
    requires i < |SLOTS|
    ensures samples + DiscoverFrom(tools, world, cache, i) ==
      if SLOTS[i] in world
      then samples + [ReadAbl(tools, world[SLOTS[i]], SLOTS[i], cache)] + DiscoverFrom(tools, world, cache, i + 1)
      else samples + DiscoverFrom(tools, world, cache, i + 1)
  {
  }

  function DiscoverSamples(tools: Tools, world: World, cache: seq<AblSample>): seq<AblSample> {
    DiscoverFrom(tools, world, cache, 0)
  }

  // ----- the warning -----

  /** A slot that had the loader at boot and no longer shows it; no digest when its sample is missing. */
  datatype Lost = Lost(name: string, digest: Option<string>, absent: bool)

  function Find(samples: seq<AblSample>, name: string): Option<AblSample> {
    if |samples| == 0 then None else if samples[0].name == name then Some(samples[0]) else Find(samples[1..], name)
  }

  function LostSlot(before: AblSample, now: Option<AblSample>): seq<Lost> {
    if before.status != EfispLoader then []
    else if now.Some? && now.value.digest == before.digest && now.value.digest != "" then []
    else if now.Some? && now.value.status == EfispLoader then []
    else [Lost(before.name,
               if now.None? then None else Some(now.value.digest), now.Some? && now.value.status == NoEfispLoader)]
  }

  function LostSlots(baseline: seq<AblSample>, samples: seq<AblSample>): seq<Lost> {
    if |baseline| == 0 then []
    else LostSlot(baseline[0], Find(samples, baseline[0].name)) + LostSlots(baseline[1..], samples)
  }

  function TokenOf(l: Lost): string {
    l.name + ":" + (if l.digest.None? then "unreadable" else l.digest.value) + ":" +
      (if l.absent then "absent" else "unknown") + ";"
  }

  function Token(lost: seq<Lost>): string {
    if |lost| == 0 then "" else TokenOf(lost[0]) + Token(lost[1..])
  }

  function Text(lost: seq<Lost>): string {
    if |lost| == 0 then "" else
      lost[0].name +
      (if lost[0].absent then ": the EFISP loader is no longer present.\n"
       else ": EFISP loader support could not be verified.\n")
      + Text(lost[1..])
  }

  function Check(baseline: seq<AblSample>, samples: seq<AblSample>): AblWarning {
    var lost := LostSlots(baseline, samples);
    AblWarning(Text(lost), Token(lost))
  }

  // ----- the guard as a state machine -----

  datatype Guard = Guard(initialized: bool, baseline: seq<AblSample>, cache: seq<AblSample>, acknowledged: string)

  const AT_BOOT := Guard(false, [], [], "")

  datatype Event =
    | Capture(world: World) | Current(world: World) | Exit(world: World) | Acknowledge(token: string) | Clear

  datatype Response = Samples(samples: seq<AblSample>) | Warning(warning: AblWarning) | Nothing

  const SILENT := AblWarning("", "")

  function Step(tools: Tools, g: Guard, e: Event): (Guard, Response) {
    match e
    case Capture(world) =>
      if g.initialized then (g, Nothing) else
        var samples := DiscoverSamples(tools, world, []);
        (g.(initialized := true, baseline := samples, cache := samples), Samples(samples))
    case Current(world) =>
      if !g.initialized then (g, Samples([])) else
        var samples := DiscoverSamples(tools, world, g.cache);
        (g.(cache := samples), Samples(samples))
    case Exit(world) =>
      if !g.initialized then (g, Warning(SILENT)) else
        var samples := DiscoverSamples(tools, world, g.cache);
        var warning := Check(g.baseline, samples);
        var silent := warning.token != "" && warning.token == g.acknowledged;
        (g.(cache := samples), Warning(if silent then SILENT else warning))
    case Acknowledge(token) => (g.(acknowledged := token), Nothing)
    case Clear => (g.(acknowledged := ""), Nothing)
  }

  function Run(tools: Tools, events: seq<Event>): Guard {
    if |events| == 0 then AT_BOOT else Step(tools, Run(tools, events[..|events| - 1]), events[|events| - 1]).0
  }

  // ----- cached samples are fresh -----

  /** The images an event reads. */
  ghost function ImagesOf(world: World): set<seq<Byte>> {
    set n | n in world && Readable(world[n]).Some? :: Readable(world[n]).value
  }

  ghost function ImagesRead(events: seq<Event>): set<seq<Byte>> {
    if |events| == 0 then {} else
      var last := events[|events| - 1];
      ImagesRead(events[..|events| - 1]) +
      (if last.Capture? || last.Current? || last.Exit? then ImagesOf(last.world) else {})
  }

  /** Different images of this run have different, non-empty, hexadecimal digests. */
  ghost predicate DigestsTellApart(tools: Tools, images: set<seq<Byte>>) {
    && (forall a, b :: a in images && b in images && tools.hash(a) == tools.hash(b) ==> a == b)
    && forall a :: a in images ==> tools.hash(a) != "" && Hexadecimal(tools.hash(a))
  }

  predicate Hexadecimal(s: string) {
    forall i :: 0 <= i < |s| ==> '0' <= s[i] <= '9' || 'a' <= s[i] <= 'f'
  }

  /** A sample with a digest carries the status of the image with that digest. */
  ghost predicate Genuine(tools: Tools, sample: AblSample, images: set<seq<Byte>>) {
    sample.digest != "" ==>
      exists a :: a in images && tools.hash(a) == sample.digest && sample.status == InspectAbl(tools.lzma, a)
  }

  ghost predicate AllGenuine(tools: Tools, samples: seq<AblSample>, images: set<seq<Byte>>) {
    forall i :: 0 <= i < |samples| ==> Genuine(tools, samples[i], images)
  }

  lemma {:induction false} CachedIsGenuine(tools: Tools, cache: seq<AblSample>, name: string, image: seq<Byte>,
                                           images: set<seq<Byte>>)
    requires AllGenuine(tools, cache, images) && image in images && DigestsTellApart(tools, images)
    ensures
      var known := Cached(cache, name, tools.hash(image));
      known.Some? ==> known.value == InspectAbl(tools.lzma, image)
  {
    if |cache| > 0 {
      assert Genuine(tools, cache[0], images);
      CachedIsGenuine(tools, cache[1..], name, image, images);
    }
  }

  /** Reading through the cache gives the sample a fresh inspection would give. */
  lemma {:induction false} CachedReadIsFresh(tools: Tools, contents: Option<seq<Byte>>, name: string,
                                             cache: seq<AblSample>, images: set<seq<Byte>>)
    requires AllGenuine(tools, cache, images) && DigestsTellApart(tools, images)
    requires Readable(contents).Some? ==> Readable(contents).value in images
    ensures ReadAbl(tools, contents, name, cache) == ReadAbl(tools, contents, name, [])
    ensures Genuine(tools, ReadAbl(tools, contents, name, cache), images)
  {
    if Readable(contents).Some? {
      CachedIsGenuine(tools, cache, name, Readable(contents).value, images);
    }
  }

  lemma {:induction false} DiscoveryIsFresh(tools: Tools, world: World, cache: seq<AblSample>, images: set<seq<Byte>>,
                                            i: nat)
    requires i <= |SLOTS| && AllGenuine(tools, cache, images) && DigestsTellApart(tools, images)
    requires ImagesOf(world) <= images
    ensures DiscoverFrom(tools, world, cache, i) == DiscoverFrom(tools, world, [], i)
    ensures AllGenuine(tools, DiscoverFrom(tools, world, cache, i), images)
    decreases |SLOTS| - i
  {
    if i < |SLOTS| {
      DiscoveryIsFresh(tools, world, cache, images, i + 1);
      if SLOTS[i] in world {
        assert Readable(world[SLOTS[i]]).Some? ==> Readable(world[SLOTS[i]]).value in ImagesOf(world);
        CachedReadIsFresh(tools, world[SLOTS[i]], SLOTS[i], cache, images);
      }
    }
  }

  lemma {:induction false} GenuineInMore(tools: Tools, samples: seq<AblSample>, images: set<seq<Byte>>,
                                         more: set<seq<Byte>>)
    requires AllGenuine(tools, samples, images) && images <= more
    ensures AllGenuine(tools, samples, more)
  {
    forall i | 0 <= i < |samples| ensures Genuine(tools, samples[i], more) {
      assert Genuine(tools, samples[i], images);
    }
  }

  /** In every run whose digests tell its images apart, the cache holds only genuine samples. */
  lemma {:induction false} CacheStaysGenuine(tools: Tools, events: seq<Event>)
    requires DigestsTellApart(tools, ImagesRead(events))
    ensures AllGenuine(tools, Run(tools, events).cache, ImagesRead(events))
  {
    if |events| > 0 {
      var init, last := events[..|events| - 1], events[|events| - 1];
      CacheStaysGenuine(tools, init);
      var before := Run(tools, init);
      GenuineInMore(tools, before.cache, ImagesRead(init), ImagesRead(events));
      if last.Capture? || last.Current? || last.Exit? {
        DiscoveryIsFresh(tools, last.world, before.cache, ImagesRead(events), 0);
        DiscoveryIsFresh(tools, last.world, [], ImagesRead(events), 0);
      }
    }
  }

  /** In every run, what the guard reports at the next read is what an inspection without cache would report. */
  lemma {:induction false} ReportsAreFresh(tools: Tools, events: seq<Event>, world: World)
    requires DigestsTellApart(tools, ImagesRead(events + [Current(world)]))
    ensures DiscoverSamples(tools, world, Run(tools, events).cache) == DiscoverSamples(tools, world, [])
  {
    var next := events + [Current(world)];
    assert next[..|next| - 1] == events;
    var images := ImagesRead(next);
    assert forall a, b :: a in ImagesRead(events) && b in ImagesRead(events) ==> a in images && b in images;
    CacheStaysGenuine(tools, events);
    GenuineInMore(tools, Run(tools, events).cache, ImagesRead(events), images);
    DiscoveryIsFresh(tools, world, Run(tools, events).cache, images, 0);
  }

  lemma {:induction false} StepKeepsBaseline(tools: Tools, g: Guard, e: Event)
    requires g.initialized
    ensures Step(tools, g, e).0.initialized && Step(tools, g, e).0.baseline == g.baseline
  {
  }

  /** The boot baseline, once taken, never changes. */
  lemma {:induction false} BaselineNeverChanges(tools: Tools, events: seq<Event>, more: seq<Event>)
    requires Run(tools, events).initialized
    ensures Run(tools, events + more).initialized && Run(tools, events + more).baseline == Run(tools, events).baseline
    decreases |more|
  {
    if |more| == 0 {
      assert events + more == events;
    } else {
      var init, last := more[..|more| - 1], more[|more| - 1];
      BaselineNeverChanges(tools, events, init);
      assert (events + more)[..|events + more| - 1] == events + init;
      StepKeepsBaseline(tools, Run(tools, events + init), last);
    }
  }

  // ----- what an acknowledgement covers -----

  /** The exit is silent exactly when no loader is lost or the acknowledged token is that of the current state. */
  lemma {:induction false} SilentExit(tools: Tools, events: seq<Event>, world: World)
    requires Run(tools, events).initialized
    requires DigestsTellApart(tools, ImagesRead(events + [Current(world)]))
    ensures
      var g := Run(tools, events);
      var lost := LostSlots(g.baseline, DiscoverSamples(tools, world, []));
      Step(tools, g, Exit(world)).1 == Warning(SILENT) <==> lost == [] || g.acknowledged == Token(lost)
  {
    ReportsAreFresh(tools, events, world);
    var g := Run(tools, events);
    var lost := LostSlots(g.baseline, DiscoverSamples(tools, world, []));
    if lost != [] {
      assert TokenOf(lost[0])[|TokenOf(lost[0])| - 1] == ';';
      assert |Token(lost)| > 0;
    }
  }

  lemma {:induction false} SplitAt(a: string, r: string, b: string, q: string, sep: char)
    requires a + [sep] + r == b + [sep] + q && sep !in a && sep !in b
    ensures a == b && r == q
  {
    var s := a + [sep] + r;
    assert s[|a|] == sep && s[|b|] == sep;
    assert a == s[..|a|] && b == s[..|b|];
    assert r == s[|a| + 1..] && q == s[|b| + 1..];
  }

  ghost predicate PlainLost(l: Lost) {
    l.name in SLOTS && (l.digest.Some? ==> Hexadecimal(l.digest.value))
  }

  lemma {:induction false} PlainSlot(name: string)
    requires name in SLOTS
    ensures ':' !in name && ';' !in name
  {
  }

  lemma {:induction false} TokenParts(l: Lost)
    requires PlainLost(l)
    ensures
      var digest := if l.digest.None? then "unreadable" else l.digest.value;
      ':' !in l.name && ';' !in l.name && ':' !in digest && ';' !in digest
  {
    PlainSlot(l.name);
  }

  lemma {:induction false} PartsAreUnique(n: string, d: string, s: string, r: string, n': string, d': string,
                                          s': string, q: string)
    requires n + ":" + d + ":" + s + ";" + r == n' + ":" + d' + ":" + s' + ";" + q
    requires ':' !in n && ':' !in n' && ':' !in d && ':' !in d' && ';' !in s && ';' !in s'
    ensures n == n' && d == d' && s == s' && r == q
  {
    assert n + ":" + d + ":" + s + ";" + r == n + [':'] + (d + ":" + s + ";" + r);
    assert n' + ":" + d' + ":" + s' + ";" + q == n' + [':'] + (d' + ":" + s' + ";" + q);
    SplitAt(n, d + ":" + s + ";" + r, n', d' + ":" + s' + ";" + q, ':');
    assert d + ":" + s + ";" + r == d + [':'] + (s + ";" + r);
    assert d' + ":" + s' + ";" + q == d' + [':'] + (s' + ";" + q);
    SplitAt(d, s + ";" + r, d', s' + ";" + q, ':');
    SplitAt(s, r, s', q, ';');
  }

  function DigestPart(l: Lost): string {
    if l.digest.None? then "unreadable" else l.digest.value
  }

  lemma {:induction false} DigestPartIsUnique(l: Lost, k: Lost)
    requires PlainLost(l) && PlainLost(k) && DigestPart(l) == DigestPart(k)
    ensures l.digest == k.digest
  {
    assert "unreadable"[0] == 'u';
  }

  lemma {:induction false} TokenOfIsUnique(l: Lost, k: Lost, r: string, q: string)
    requires PlainLost(l) && PlainLost(k) && TokenOf(l) + r == TokenOf(k) + q
    ensures l == k && r == q
  {
    TokenParts(l);
    TokenParts(k);
    var sl := if l.absent then "absent" else "unknown";
    var sk := if k.absent then "absent" else "unknown";
    PartsAreUnique(l.name, DigestPart(l), sl, r, k.name, DigestPart(k), sk, q);
    DigestPartIsUnique(l, k);
    assert sl[0] == sk[0];
  }

  lemma {:induction false} TokenEmptyIff(lost: seq<Lost>)
    ensures Token(lost) == "" <==> lost == []
  {
    if |lost| > 0 {
      assert |TokenOf(lost[0])| > 0;
    }
  }

  /** A token describes one state only: equal tokens come from the same lost slots with the same digests. */
  lemma {:induction false} TokenDescribesState(lost: seq<Lost>, lost': seq<Lost>)
    requires forall i :: 0 <= i < |lost| ==> PlainLost(lost[i])
    requires forall i :: 0 <= i < |lost'| ==> PlainLost(lost'[i])
    requires Token(lost) == Token(lost')
    ensures lost == lost'
    decreases |lost|
  {
    TokenEmptyIff(lost);
    TokenEmptyIff(lost');
    if |lost| > 0 {
      TokenOfIsUnique(lost[0], lost'[0], Token(lost[1..]), Token(lost'[1..]));
      TokenDescribesState(lost[1..], lost'[1..]);
      assert lost == [lost[0]] + lost[1..] && lost' == [lost'[0]] + lost'[1..];
    }
  }

  // ----- the guard over whole runs -----

  /** A sample as discovery makes it. */
  ghost predicate PlainSample(sample: AblSample) {
    sample.name in SLOTS && Hexadecimal(sample.digest)
  }

  lemma {:induction false} DiscoveredArePlain(tools: Tools, world: World, cache: seq<AblSample>, i: nat)
    requires i <= |SLOTS| && DigestsTellApart(tools, ImagesOf(world))
    ensures forall k :: 0 <= k < |DiscoverFrom(tools, world, cache, i)| ==>
      PlainSample(DiscoverFrom(tools, world, cache, i)[k])
    decreases |SLOTS| - i
  {
    if i < |SLOTS| {
      DiscoveredArePlain(tools, world, cache, i + 1);
      if SLOTS[i] in world && Readable(world[SLOTS[i]]).Some? {
        assert Readable(world[SLOTS[i]]).value in ImagesOf(world);
      }
    }
  }

  lemma {:induction false} TellApartSubset(tools: Tools, images: set<seq<Byte>>, fewer: set<seq<Byte>>)
    requires DigestsTellApart(tools, images) && fewer <= images
    ensures DigestsTellApart(tools, fewer)
  {
  }

  lemma {:induction false} BaselineIsPlain(tools: Tools, events: seq<Event>)
    requires DigestsTellApart(tools, ImagesRead(events))
    ensures forall k :: 0 <= k < |Run(tools, events).baseline| ==> PlainSample(Run(tools, events).baseline[k])
  {
    if |events| > 0 {
      var init, last := events[..|events| - 1], events[|events| - 1];
      TellApartSubset(tools, ImagesRead(events), ImagesRead(init));
      BaselineIsPlain(tools, init);
      if last.Capture? {
        TellApartSubset(tools, ImagesRead(events), ImagesOf(last.world));
        DiscoveredArePlain(tools, last.world, [], 0);
      }
    }
  }

  lemma {:induction false} FoundIsPlain(samples: seq<AblSample>, name: string)
    requires forall k :: 0 <= k < |samples| ==> PlainSample(samples[k])
    ensures Find(samples, name).Some? ==> PlainSample(Find(samples, name).value)
  {
    if |samples| > 0 {
      FoundIsPlain(samples[1..], name);
    }
  }

  lemma {:induction false} LostArePlain(baseline: seq<AblSample>, samples: seq<AblSample>)
    requires forall k :: 0 <= k < |baseline| ==> PlainSample(baseline[k])
    requires forall k :: 0 <= k < |samples| ==> PlainSample(samples[k])
    ensures forall k :: 0 <= k < |LostSlots(baseline, samples)| ==> PlainLost(LostSlots(baseline, samples)[k])
  {
    if |baseline| > 0 {
      FoundIsPlain(samples, baseline[0].name);
      LostArePlain(baseline[1..], samples);
    }
  }

  /** Event `i` is the last one that set or cleared the acknowledgement. */
  ghost predicate LastWord(events: seq<Event>, i: nat) {
    && i < |events| && events[i].Acknowledge?
    && forall j :: i < j < |events| ==> !events[j].Acknowledge? && !events[j].Clear?
  }

  /** A standing acknowledgement was given by some event and not taken back. */
  lemma {:induction false} AcknowledgedBy(tools: Tools, events: seq<Event>) returns (i: nat)
    requires Run(tools, events).acknowledged != ""
    ensures LastWord(events, i) && events[i].token == Run(tools, events).acknowledged
  {
    var last := |events| - 1;
    if events[last].Acknowledge? {
      i := last;
    } else {
      i := AcknowledgedBy(tools, events[..last]);
      assert events[..last][i] == events[i];
      forall j | i < j < |events| ensures !events[j].Acknowledge? && !events[j].Clear? {
        assert j < last ==> events[..last][j] == events[j];
      }
    }
  }

  ghost predicate AllPlain(lost: seq<Lost>) {
    forall k :: 0 <= k < |lost| ==> PlainLost(lost[k])
  }

  /** The lost slots of any run are those of a fresh inspection, with plain names and digests. */
  lemma {:induction false} LostOfRunArePlain(tools: Tools, events: seq<Event>, world: World)
    requires DigestsTellApart(tools, ImagesRead(events + [Current(world)]))
    ensures AllPlain(LostSlots(Run(tools, events).baseline, DiscoverSamples(tools, world, [])))
  {
    var next := events + [Current(world)];
    assert next[..|next| - 1] == events;
    TellApartSubset(tools, ImagesRead(next), ImagesRead(events));
    TellApartSubset(tools, ImagesRead(next), ImagesOf(world));
    BaselineIsPlain(tools, events);
    DiscoveredArePlain(tools, world, [], 0);
    LostArePlain(Run(tools, events).baseline, DiscoverSamples(tools, world, []));
  }

  /**
    In every run: an exit that stays silent although a loader is lost was acknowledged by an event of the run that
    nothing replaced or cleared since, with a token that only the slots, digests and findings of a fresh inspection
    now can produce.
   */
  lemma {:induction false} SilenceMeansThisStateWasAcknowledged(tools: Tools, events: seq<Event>, world: World)
    returns (i: nat)
    requires Run(tools, events).initialized
    requires DigestsTellApart(tools, ImagesRead(events + [Current(world)]))
    requires Step(tools, Run(tools, events), Exit(world)).1 == Warning(SILENT)
    requires LostSlots(Run(tools, events).baseline, DiscoverSamples(tools, world, [])) != []
    ensures
      var lost := LostSlots(Run(tools, events).baseline, DiscoverSamples(tools, world, []));
      && LastWord(events, i) && events[i] == Acknowledge(Token(lost))
      && forall other :: AllPlain(other) && Token(other) == events[i].token ==> other == lost
  {
    var lost := LostSlots(Run(tools, events).baseline, DiscoverSamples(tools, world, []));
    SilentExit(tools, events, world);
    TokenEmptyIff(lost);
    i := AcknowledgedBy(tools, events);
    LostOfRunArePlain(tools, events, world);
    forall other | AllPlain(other) && Token(other) == Token(lost) ensures other == lost {
      TokenDescribesState(other, lost);
    }
  }

  // ----- the guard in place -----

  class AblSession {
    var initialized: bool
    var baseline: seq<AblSample>
    var cache: seq<AblSample>
    var acknowledged: string

    ghost function Now(): Guard
      reads this
    {
      Guard(initialized, baseline, cache, acknowledged)
    }

    constructor ()
      ensures Now() == AT_BOOT
    {
      initialized, baseline, cache, acknowledged := false, [], [], "";
    }

    method Discover(tools: Tools, world: World, known: seq<AblSample>) returns (samples: seq<AblSample>)
      ensures samples == DiscoverSamples(tools, world, known)
    {
      samples := [];
      for i := 0 to |SLOTS|
        invariant samples + DiscoverFrom(tools, world, known, i) == DiscoverSamples(tools, world, known)
      {
        DiscoverStep(tools, world, known, i, samples);
        if SLOTS[i] in world {
          samples := samples + [ReadAbl(tools, world[SLOTS[i]], SLOTS[i], known)];
        }
      }
    }

    /** Taken once; a later call changes nothing. */
    method CaptureBaseline(tools: Tools, world: World)
      modifies this
      ensures Now() == Step(tools, old(Now()), Capture(world)).0
    {
      if initialized { return; }
      initialized := true;
      cache := Discover(tools, world, []);
      baseline := cache;
    }

    method CurrentSamples(tools: Tools, world: World) returns (samples: seq<AblSample>)
      modifies this
      ensures (Now(), Samples(samples)) == Step(tools, old(Now()), Current(world))
    {
      if !initialized { return []; }
      cache := Discover(tools, world, cache);
      samples := cache;
    }

    method ExitWarning(tools: Tools, world: World) returns (warning: AblWarning)
      modifies this
      ensures (Now(), Warning(warning)) == Step(tools, old(Now()), Exit(world))
    {
      if !initialized { return SILENT; }
      var current := Discover(tools, world, cache);
      warning := Check(baseline, current);
      cache := current;
      if warning.token != "" && warning.token == acknowledged {
        warning := SILENT;
      }
    }

    method AcknowledgeExit(token: string)
      modifies this
      ensures forall tools :: Now() == Step(tools, old(Now()), Acknowledge(token)).0
    {
      acknowledged := token;
    }

    method ClearAcknowledgement()
      modifies this
      ensures forall tools :: Now() == Step(tools, old(Now()), Clear).0
    {
      acknowledged := "";
    }
  }
}
