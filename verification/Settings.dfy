/**
  The settings file: an optional version header, then one record per value in key order, each a pair of
  length-prefixed, NUL-terminated strings. A file cut short anywhere still loads its complete records.
 */
module Settings {
  import opened Wrappers
  import opened Bytes

  type Text = seq<Byte>
  type Values = map<Text, Text>

  const TOO_LONG: nat := 512

  // ----- writing -----

  function U16(n: nat): seq<Byte> {
    [n % 0x100, n / 0x100 % 0x100]
  }

  /** A string as it is written: a 16-bit length that counts the terminator, then that many bytes. */
  function Field(s: Text): seq<Byte> {
    var length := (|s| + 1) % 0x1_0000;
    U16(length) + (s + [0])[..length]
  }

  function Record(k: Text, v: Text): seq<Byte> {
    Field(k) + Field(v)
  }

  /** The records of `keys`, in that order. */
  function Records(m: Values, keys: seq<Text>): seq<Byte>
    requires forall i :: 0 <= i < |keys| ==> keys[i] in m
  {
    if |keys| == 0 then [] else Records(m, keys[..|keys| - 1]) + Record(keys[|keys| - 1], m[keys[|keys| - 1]])
  }

  /** A 32-bit version, least significant byte first; version 0 writes no header. */
  function Header(version: int): seq<Byte> {
    if version == 0 then [] else
      var u := version % 0x1_0000_0000;
      [u % 0x100, u / 0x100 % 0x100, u / 0x1_0000 % 0x100, u / 0x100_0000 % 0x100]
  }

  // ----- reading -----

  /** The string up to the first NUL. */
  function CString(a: seq<Byte>): (s: Text)
    ensures |s| <= |a| && 0 !in s
    ensures 0 !in a ==> s == a
  {
    if |a| == 0 || a[0] == 0 then [] else [a[0]] + CString(a[1..])
  }

  /** One field, and what follows it; None when it is too long or cut short. */
  function ReadField(bytes: seq<Byte>): (r: Option<(Text, seq<Byte>)>)
    ensures r.Some? ==> |r.value.1| + 2 <= |bytes| && |r.value.0| < TOO_LONG && 0 !in r.value.0
  {
    if |bytes| < 2 then None else
      var length := Le16(bytes, 0);
      if length >= TOO_LONG || length > |bytes| - 2 then None
      else Some((CString(bytes[2..2 + length]), bytes[2 + length..]))
  }

  /** One record, and what follows it. */
  function ReadRecord(bytes: seq<Byte>): (r: Option<(Text, Text, seq<Byte>)>)
    ensures r.Some? ==> |r.value.2| < |bytes|
  {
    var name := ReadField(bytes);
    if name.None? then None else
      var value := ReadField(name.value.1);
      if value.None? then None else Some((name.value.0, value.value.0, value.value.1))
  }

  function LoadRecords(m: Values, bytes: seq<Byte>): Values
    decreases |bytes|
  {
    var r := ReadRecord(bytes);
    if r.None? then m else LoadRecords(m[r.value.0 := r.value.1], r.value.2)
  }

  function Loaded(m: Values, version: int, file: seq<Byte>): Values {
    if !(Header(version) <= file) then m else LoadRecords(m, file[|Header(version)|..])
  }

  // ----- the order of the keys -----

  predicate Less(a: Text, b: Text) {
    |b| > 0 && (|a| == 0 || a[0] < b[0] || (a[0] == b[0] && Less(a[1..], b[1..])))
  }

  lemma {:induction false} LessIsTotal(a: Text, b: Text)
    ensures a == b || Less(a, b) || Less(b, a)
    ensures !(Less(a, b) && Less(b, a)) && !Less(a, a)
  {
    if |a| > 0 && |b| > 0 {
      LessIsTotal(a[1..], b[1..]);
      LessIsTotal(a[1..], a[1..]);
      assert a == [a[0]] + a[1..] && b == [b[0]] + b[1..];
    } else if |a| > 0 {
      LessIsTotal(a[1..], a[1..]);
    }
  }

  lemma {:induction false} LessIsTransitive(a: Text, b: Text, c: Text)
    requires Less(a, b) && Less(b, c)
    ensures Less(a, c)
  {
    if |a| > 0 && a[0] == b[0] == c[0] {
      LessIsTransitive(a[1..], b[1..], c[1..]);
    }
  }

  predicate IsLeast(s: set<Text>, k: Text) {
    k in s && forall j :: j in s && j != k ==> Less(k, j)
  }

  lemma {:induction false} LeastExists(s: set<Text>) returns (k: Text)
    requires s != {}
    ensures IsLeast(s, k)
  {
    var x :| x in s;
    if s == {x} {
      k := x;
    } else {
      var y := LeastExists(s - {x});
      LessIsTotal(x, y);
      if Less(x, y) {
        forall j | j in s && j != x ensures Less(x, j) {
          if j != y {
            LessIsTransitive(x, y, j);
          }
        }
        k := x;
      } else {
        k := y;
      }
    }
  }

  /** `keys` are the keys of `m`, in order. */
  ghost predicate KeyOrder(m: Values, keys: seq<Text>) {
    && (forall i, j :: 0 <= i < j < |keys| ==> Less(keys[i], keys[j]))
    && (forall k :: k in m <==> k in keys)
  }

  /** An ordered walk over the keys has passed `keys` and still has `left` ahead of it. */
  ghost predicate Visited(m: Values, keys: seq<Text>, left: set<Text>) {
    && (forall i, j :: 0 <= i < j < |keys| ==> Less(keys[i], keys[j]))
    && (forall i, k :: 0 <= i < |keys| && k in left ==> Less(keys[i], k))
    && (forall i :: 0 <= i < |keys| ==> keys[i] in m)
    && (forall k :: k in left ==> k in m)
    && (forall k :: k in m ==> k in keys || k in left)
  }

  lemma {:induction false} VisitLeast(m: Values, keys: seq<Text>, left: set<Text>, key: Text)
    requires Visited(m, keys, left) && IsLeast(left, key)
    ensures Visited(m, keys + [key], left - {key})
  {
    var more := keys + [key];
    forall i, k | 0 <= i < |more| && k in left - {key} ensures Less(more[i], k) {
    }
    forall k | k in m ensures k in more || k in left - {key} {
    }
  }

  lemma {:induction false} RecordsNext(header: seq<Byte>, m: Values, keys: seq<Text>, key: Text)
    requires key in m && forall i :: 0 <= i < |keys| ==> keys[i] in m
    ensures header + Records(m, keys) + Record(key, m[key]) == header + Records(m, keys + [key])
  {
    assert (keys + [key])[..|keys|] == keys;
  }

  // ----- round trip and prefix law -----

  /** What the format can carry: no NUL, at most 510 bytes. */
  predicate Plain(s: Text) {
    0 !in s && |s| <= 510
  }

  predicate PlainEntry(m: Values, k: Text)
    requires k in m
  {
    Plain(k) && Plain(m[k])
  }

  lemma {:induction false} CStringOfTerminated(s: Text)
    requires 0 !in s
    ensures CString(s + [0]) == s
  {
    if |s| > 0 {
      CStringOfTerminated(s[1..]);
      assert (s + [0])[1..] == s[1..] + [0];
      assert s == [s[0]] + s[1..];
    }
  }

  lemma {:induction false} U16ReadsBack(n: nat, rest: seq<Byte>)
    requires n < 0x1_0000
    ensures Le16(U16(n) + rest, 0) == n
  {
  }

  lemma {:induction false} FieldShape(s: Text)
    requires |s| <= 511
    ensures Field(s) == U16(|s| + 1) + (s + [0]) && |Field(s)| == |s| + 3
  {
    var length := (|s| + 1) % 0x1_0000;
    assert length == |s| + 1;
    assert (s + [0])[..length] == s + [0];
  }

  lemma {:induction false} FieldReadsBack(s: Text, rest: seq<Byte>)
    requires Plain(s)
    ensures ReadField(Field(s) + rest) == Some((s, rest))
  {
    FieldShape(s);
    var bytes := Field(s) + rest;
    assert bytes == U16(|s| + 1) + (s + [0] + rest);
    U16ReadsBack(|s| + 1, s + [0] + rest);
    assert bytes[2..2 + |s| + 1] == s + [0];
    assert bytes[2 + |s| + 1..] == rest;
    CStringOfTerminated(s);
  }

  /** A field that is too long by one, or cut short, is not read. */
  lemma {:induction false} FieldRefused(s: Text, t: seq<Byte>)
    requires |s| <= 511 && if |s| == 511 then Field(s) <= t else t < Field(s)
    ensures ReadField(t).None?
  {
    FieldShape(s);
    if |t| >= 2 {
      assert t[0] == Field(s)[0] == U16(|s| + 1)[0] && t[1] == Field(s)[1] == U16(|s| + 1)[1];
      assert Le16(t, 0) == Le16(U16(|s| + 1) + [], 0) by {
        assert U16(|s| + 1) + [] == U16(|s| + 1);
      }
      U16ReadsBack(|s| + 1, []);
    }
  }

  lemma {:induction false} RecordReadsBack(k: Text, v: Text, rest: seq<Byte>)
    requires Plain(k) && Plain(v)
    ensures ReadRecord(Record(k, v) + rest) == Some((k, v, rest))
  {
    assert Record(k, v) + rest == Field(k) + (Field(v) + rest);
    FieldReadsBack(k, Field(v) + rest);
    FieldReadsBack(v, rest);
  }

  /** The entries of `m` under `keys`. */
  function Picked(m: Values, keys: seq<Text>): Values {
    map k | k in m && k in keys :: m[k]
  }

  lemma {:induction false} PickedNext(e: Values, m: Values, init: seq<Text>, k: Text)
    requires k in m
    ensures (e + Picked(m, init))[k := m[k]] == e + Picked(m, init + [k])
  {
  }

  lemma {:induction false} LoadOne(e: Values, k: Text, v: Text, rest: seq<Byte>)
    requires Plain(k) && Plain(v)
    ensures LoadRecords(e, Record(k, v) + rest) == LoadRecords(e[k := v], rest)
  {
    RecordReadsBack(k, v, rest);
  }

  lemma {:induction false} RecordsLoad(e: Values, m: Values, keys: seq<Text>, rest: seq<Byte>)
    requires forall i :: 0 <= i < |keys| ==> keys[i] in m && PlainEntry(m, keys[i])
    ensures LoadRecords(e, Records(m, keys) + rest) == LoadRecords(e + Picked(m, keys), rest)
    decreases |keys|
  {
    if |keys| == 0 {
      assert Records(m, keys) + rest == rest;
      assert e + Picked(m, keys) == e;
    } else {
      var init, k := keys[..|keys| - 1], keys[|keys| - 1];
      var record := Record(k, m[k]);
      assert Records(m, keys) + rest == Records(m, init) + (record + rest);
      RecordsLoad(e, m, init, record + rest);
      assert PlainEntry(m, k);
      LoadOne(e + Picked(m, init), k, m[k], rest);
      PickedNext(e, m, init, k);
      assert init + [k] == keys;
    }
  }

  lemma {:induction false} LoadedAfterHeader(e: Values, version: int, body: seq<Byte>)
    ensures Loaded(e, version, Header(version) + body) == LoadRecords(e, body)
  {
    assert (Header(version) + body)[|Header(version)|..] == body;
  }

  /** Saving and loading restores every map whose strings the format can carry, over whatever was there. */
  lemma {:induction false} RoundTrip(e: Values, m: Values, version: int, keys: seq<Text>)
    requires KeyOrder(m, keys) && forall k :: k in m ==> PlainEntry(m, k)
    ensures Loaded(e, version, Header(version) + Records(m, keys)) == e + m
  {
    LoadedAfterHeader(e, version, Records(m, keys));
    assert Records(m, keys) + [] == Records(m, keys);
    RecordsLoad(e, m, keys, []);
    assert Picked(m, keys) == m;
  }

  lemma {:induction false} PartialRecordIgnored(k: Text, v: Text, t: seq<Byte>)
    requires Plain(k) && Plain(v) && t < Record(k, v)
    ensures ReadRecord(t).None?
  {
    if |t| < |Field(k)| {
      assert t < Field(k) by {
        assert t == Record(k, v)[..|t|] == Field(k)[..|t|];
      }
      FieldRefused(k, t);
    } else {
      var t2 := t[|Field(k)|..];
      assert t[..|Field(k)|] == Record(k, v)[..|Field(k)|] == Field(k);
      assert t == Field(k) + t2;
      FieldReadsBack(k, t2);
      assert t2 == Record(k, v)[|Field(k)|..|t|] == Field(v)[..|t2|];
      FieldRefused(v, t2);
    }
  }

  lemma {:induction false} RecordsSplit(m: Values, keys: seq<Text>, j: nat)
    requires j <= |keys| && forall i :: 0 <= i < |keys| ==> keys[i] in m
    ensures Records(m, keys[..j]) <= Records(m, keys)
    ensures j < |keys| ==> Records(m, keys[..j]) + Record(keys[j], m[keys[j]]) == Records(m, keys[..j + 1])
  {
    if j < |keys| {
      assert keys[..j + 1][..j] == keys[..j];
      if j + 1 < |keys| {
        RecordsSplit(m, keys[..|keys| - 1], j);
        assert keys[..|keys| - 1][..j] == keys[..j];
      } else {
        assert keys[..|keys| - 1] == keys[..j] && keys[..j + 1] == keys;
      }
    } else {
      assert keys[..j] == keys;
    }
  }

  /** `j` records of the file are complete in its first `n` record bytes. */
  ghost predicate CompleteRecords(m: Values, keys: seq<Text>, n: nat, j: nat)
    requires forall i :: 0 <= i < |keys| ==> keys[i] in m
  {
    j <= |keys| && |Records(m, keys[..j])| <= n && (j < |keys| ==> n < |Records(m, keys[..j + 1])|)
  }

  /** Every cut leaves some number of complete records. */
  lemma {:induction false} CutSomewhere(m: Values, keys: seq<Text>, n: nat) returns (j: nat)
    requires forall i :: 0 <= i < |keys| ==> keys[i] in m
    ensures CompleteRecords(m, keys, n, j)
  {
    j := |keys|;
    while n < |Records(m, keys[..j])|
      invariant j <= |keys| && (j < |keys| ==> n < |Records(m, keys[..j + 1])|)
      decreases j
    {
      j := j - 1;
    }
  }

  /** The records are those before `j`, record `j`, and the rest. */
  lemma {:induction false} RecordAt(m: Values, keys: seq<Text>, j: nat) returns (rest: seq<Byte>)
    requires j < |keys| && forall i :: 0 <= i < |keys| ==> keys[i] in m
    ensures Records(m, keys[..j + 1]) == Records(m, keys[..j]) + Record(keys[j], m[keys[j]])
    ensures Records(m, keys) == Records(m, keys[..j]) + (Record(keys[j], m[keys[j]]) + rest)
  {
    RecordsSplit(m, keys, j);
    RecordsSplit(m, keys, j + 1);
    rest := Regroup(Records(m, keys), Records(m, keys[..j]), Record(keys[j], m[keys[j]]));
  }

  lemma {:induction false} Regroup(all: seq<Byte>, done: seq<Byte>, record: seq<Byte>) returns (rest: seq<Byte>)
    requires done + record <= all
    ensures all == done + (record + rest)
  {
    rest := all[|done + record|..];
    assert all == (done + record) + rest;
  }

  lemma {:induction false} PrefixTail(body: seq<Byte>, done: seq<Byte>, record: seq<Byte>, rest: seq<Byte>)
    requires body <= done + (record + rest) && |done| <= |body| < |done| + |record|
    ensures done <= body && body[|done|..] < record
  {
    var all := done + (record + rest);
    assert body == all[..|body|];
    assert body[..|done|] == all[..|done|] == done;
    forall i | 0 <= i < |body| - |done| ensures body[|done|..][i] == record[i] {
      assert all[|done| + i] == (record + rest)[i];
    }
  }

  /** A prefix of the records is the complete ones and a part of the next. */
  lemma {:induction false} SplitPrefix(m: Values, keys: seq<Text>, body: seq<Byte>, j: nat) returns (tail: seq<Byte>)
    requires forall i :: 0 <= i < |keys| ==> keys[i] in m
    requires body <= Records(m, keys) && CompleteRecords(m, keys, |body|, j)
    ensures body == Records(m, keys[..j]) + tail
    ensures if j < |keys| then tail < Record(keys[j], m[keys[j]]) else tail == []
  {
    if j < |keys| {
      var rest := RecordAt(m, keys, j);
      PrefixTail(body, Records(m, keys[..j]), Record(keys[j], m[keys[j]]), rest);
      tail := body[|Records(m, keys[..j])|..];
    } else {
      assert keys[..j] == keys;
      tail := [];
    }
  }

  /** Loading a file cut anywhere after its header yields exactly the entries whose records are complete. */
  lemma {:induction false} PrefixLaw(e: Values, m: Values, version: int, keys: seq<Text>, body: seq<Byte>, j: nat)
    requires KeyOrder(m, keys) && forall k :: k in m ==> PlainEntry(m, k)
    requires body <= Records(m, keys) && CompleteRecords(m, keys, |body|, j)
    ensures Loaded(e, version, Header(version) + body) == e + Picked(m, keys[..j])
  {
    LoadedAfterHeader(e, version, body);
    var tail := SplitPrefix(m, keys, body, j);
    RecordsLoad(e, m, keys[..j], tail);
    if j < |keys| {
      assert PlainEntry(m, keys[j]);
      PartialRecordIgnored(keys[j], m[keys[j]], tail);
    }
  }

  // ----- exactly which maps survive -----

  /** Loaded strings hold no NUL and are shorter than the limit. */
  predicate Loadable(m: Values) {
    forall k :: k in m ==> 0 !in k && 0 !in m[k] && |k| < TOO_LONG && |m[k]| < TOO_LONG
  }

  lemma {:induction false} LoadedIsLoadable(e: Values, bytes: seq<Byte>)
    requires Loadable(e)
    ensures Loadable(LoadRecords(e, bytes))
    decreases |bytes|
  {
    var r := ReadRecord(bytes);
    if r.Some? {
      LoadedIsLoadable(e[r.value.0 := r.value.1], r.value.2);
    }
  }

  /** The first record with a string of 511 bytes stops the loading. */
  lemma {:induction false} LongRecordStops(e: Values, k: Text, v: Text, rest: seq<Byte>)
    requires 0 !in k && 0 !in v && |k| <= 511 && |v| <= 511 && (|k| == 511 || |v| == 511)
    ensures LoadRecords(e, Record(k, v) + rest) == e
  {
    var bytes := Record(k, v) + rest;
    assert bytes == Field(k) + (Field(v) + rest);
    if |k| == 511 {
      FieldRefused(k, bytes);
    } else {
      FieldReadsBack(k, Field(v) + rest);
      FieldRefused(v, Field(v) + rest);
    }
  }

  /** The first key from position `i` on whose entry is not plain. */
  lemma {:induction false} FirstNotPlain(m: Values, keys: seq<Text>, i: nat) returns (j: nat)
    requires i <= |keys| && forall n :: 0 <= n < |keys| ==> keys[n] in m
    requires forall n :: 0 <= n < i ==> PlainEntry(m, keys[n])
    requires exists n :: 0 <= n < |keys| && !PlainEntry(m, keys[n])
    ensures j < |keys| && !PlainEntry(m, keys[j]) && forall n :: 0 <= n < j ==> PlainEntry(m, keys[n])
    decreases |keys| - i
  {
    if i < |keys| && !PlainEntry(m, keys[i]) {
      j := i;
    } else {
      j := FirstNotPlain(m, keys, i + 1);
    }
  }

  lemma {:induction false} NotYetSaved(m: Values, keys: seq<Text>, j: nat)
    requires KeyOrder(m, keys) && j < |keys|
    ensures keys[j] !in keys[..j]
  {
    forall i | 0 <= i < j ensures keys[..j][i] != keys[j] {
      LessIsTotal(keys[i], keys[j]);
    }
  }

  /** A saved map comes back, into an empty one, exactly when every name and value is NUL-free and at most 510 bytes. */
  lemma {:induction false} SurvivesIff(m: Values, version: int, keys: seq<Text>)
    requires KeyOrder(m, keys)
    ensures Loaded(map[], version, Header(version) + Records(m, keys)) == m <==> forall k :: k in m ==> PlainEntry(m, k)
  {
    if forall k :: k in m ==> PlainEntry(m, k) {
      RoundTrip(map[], m, version, keys);
      assert map[] + m == m;
    } else if Loaded(map[], version, Header(version) + Records(m, keys)) == m {
      LoadedAfterHeader(map[], version, Records(m, keys));
      LoadedIsLoadable(map[], Records(m, keys));
      LongStringIsLost(m, keys);
    }
  }

  lemma {:induction false} LongStringIsLost(m: Values, keys: seq<Text>)
    requires KeyOrder(m, keys) && Loadable(m) && !(forall k :: k in m ==> PlainEntry(m, k))
    ensures LoadRecords(map[], Records(m, keys)) != m
  {
    var j := FirstNotPlain(m, keys, 0);
    var k := keys[j];
    var rest := RecordAt(m, keys, j);
    RecordsLoad(map[], m, keys[..j], Record(k, m[k]) + rest);
    LongRecordStops(map[] + Picked(m, keys[..j]), k, m[k], rest);
    NotYetSaved(m, keys, j);
  }

  // ----- the manager in place -----

  class InfoManager {
    var values: Values
    var version: int
    var isConst: bool

    constructor (version: int)
      ensures values == map[] && this.version == version && !isConst
    {
      values, this.version, isConst := map[], version, false;
    }

    method SetConst()
      modifies this`isConst
      ensures isConst
    {
      isConst := true;
    }

    /** Refuses empty names and names that start with a digit; a constant manager never overwrites. */
    method SetValue(name: Text, value: Text) returns (rc: int)
      modifies this`values
      ensures rc == if name == [] || 0x30 <= name[0] <= 0x39 then -1 else 0
      ensures values == if rc == -1 || (name in old(values) && isConst) then old(values) else old(values)[name := value]
    {
      if name == [] || 0x30 <= name[0] <= 0x39 {
        return -1;
      }
      if name !in values {
        values := values[name := value];
      } else if !isConst {
        values := values[name := value];
      }
      rc := 0;
    }

    /** Writes every record in key order; nothing is promised of the file when opening, writing or closing fails. */
    method SaveValues(works: bool) returns (rc: int, file: seq<Byte>, ghost keys: seq<Text>)
      ensures KeyOrder(values, keys)
      ensures rc == 0 ==> file == Header(version) + Records(values, keys)
      ensures rc == 0 || (rc == -1 && !works)
    {
      file := Header(version);
      keys := [];
      var left := values.Keys;
      while left != {}
        invariant Visited(values, keys, left)
        invariant file == Header(version) + Records(values, keys)
      {
        ghost var least := LeastExists(left);
        var key :| key in left && IsLeast(left, key);
        RecordsNext(Header(version), values, keys, key);
        file := file + Record(key, values[key]);
        VisitLeast(values, keys, left, key);
        keys, left := keys + [key], left - {key};
      }
      var failed: bool := *;
      if failed && !works {
        file := *;
        return -1, file, keys;
      }
      rc := 0;
    }

    /** Overrides the values with every complete record of the file. */
    method LoadValues(file: Option<seq<Byte>>) returns (rc: int)
      modifies this`values
      ensures rc == if file.None? then -1 else 0
      ensures values == if file.None? then old(values) else Loaded(old(values), version, file.value)
    {
      if file.None? {
        return -1;
      }
      rc := 0;
      if !(Header(version) <= file.value) {
        return;
      }
      var rest := file.value[|Header(version)|..];
      while true
        invariant LoadRecords(values, rest) == Loaded(old(values), version, file.value)
        decreases |rest|
      {
        var name := ReadField(rest);
        if name.None? { return; }
        var value := ReadField(name.value.1);
        if value.None? { return; }
        values := values[name.value.0 := value.value.0];
        rest := value.value.1;
      }
    }
  }
}
