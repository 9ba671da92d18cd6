/**
  Writing an EFI image or zeros to a partition and reading it back, under every schedule of short, interrupted
  and failing calls, on a device that may store wrong bytes.
 */
module BlockIo {
  import opened Wrappers
  import opened Bytes
  import opened AblImage

  const CHUNK: nat := 64 * 1024

  /** The result of one system call; a write also says what the device really stored. */
  datatype Call = Interrupted | Failed | Moved(n: nat, stored: seq<Byte>)

  /** No call fails, and no write stores anything but its data; calls may still be short or interrupted. */
  predicate Honest(schedule: seq<Call>) {
    forall i :: 0 <= i < |schedule| ==>
      schedule[i] == Interrupted || (schedule[i].Moved? && schedule[i].n > 0 && schedule[i].stored == [])
  }

  /** How many calls of the schedule complete. */
  function Completed(schedule: seq<Call>): nat {
    if |schedule| == 0 then 0 else (if schedule[0].Moved? then 1 else 0) + Completed(schedule[1..])
  }

  /** `later` is what is left of the honest schedule `earlier` after at most `calls` completed calls. */
  ghost predicate Spent(earlier: seq<Call>, later: seq<Call>, calls: nat) {
    |later| <= |earlier| && (Honest(earlier) ==> Honest(later) && Completed(later) + calls >= Completed(earlier))
  }

  /** What the kernel will do, call by call; once the schedule is used up every call fails. */
  class Kernel {
    var schedule: seq<Call>
    const fsyncSucceeds: bool

    constructor (schedule: seq<Call>, fsyncSucceeds: bool)
      ensures this.schedule == schedule && this.fsyncSucceeds == fsyncSucceeds
    {
      this.schedule, this.fsyncSucceeds := schedule, fsyncSucceeds;
    }

    method Next() returns (call: Call)
      modifies this
      ensures old(schedule) == [] ==> call == Failed && schedule == []
      ensures old(schedule) != [] ==> call == old(schedule)[0] && schedule == old(schedule)[1..]
      ensures Spent(old(schedule), schedule, if call.Moved? then 1 else 0)
      ensures Honest(old(schedule)) && Completed(old(schedule)) > 0 ==>
        call == Interrupted || (call.Moved? && call.n > 0 && call.stored == [])
    {
      if schedule == [] {
        return Failed;
      }
      call := schedule[0];
      schedule := schedule[1..];
    }
  }

  // ----- reading -----

  /** pread: at least one byte of what was asked for, nothing past the end, or a failure. */
  function Transferred(call: Call, count: nat, room: nat): (n: nat)
    ensures n <= count && n <= room
  {
    var most := if count <= room then count else room;
    if !call.Moved? then 0 else if call.n <= most then call.n else most
  }

  method ReadAt(kernel: Kernel, file: seq<Byte>, count: nat, offset: nat) returns (ok: bool, out: seq<Byte>)
    modifies kernel
    ensures ok && count > 0 ==> offset + count <= |file| && out == file[offset..offset + count]
    ensures Spent(old(kernel.schedule), kernel.schedule, count)
    ensures Honest(old(kernel.schedule)) && Completed(old(kernel.schedule)) >= count && offset + count <= |file| ==> ok
  {
    out := [];
    while |out| < count
      invariant |out| <= count && Spent(old(kernel.schedule), kernel.schedule, |out|)
      invariant out != [] ==> offset + |out| <= |file| && out == file[offset..offset + |out|]
      decreases |kernel.schedule|, count - |out|
    {
      var at := offset + |out|;
      var call := kernel.Next();
      if call == Interrupted { continue; }
      var n := if at <= |file| then Transferred(call, count - |out|, |file| - at) else 0;
      if n == 0 { return false, out; }
      assert file[offset..at] + file[at..at + n] == file[offset..at + n];
      out := out + file[at..at + n];
    }
    ok := true;
  }

  // ----- writing -----

  /** What a pwrite of `n` bytes leaves in place of `wanted`: the device's own bytes where it gives any. */
  function Stored(call: Call, wanted: seq<Byte>, k: nat): Byte
    requires k < |wanted|
  {
    if call.Moved? && k < |call.stored| then call.stored[k] else wanted[k]
  }

  /** pwrite: changes at most the `n` bytes it reports, whatever it stores there. */
  method Pwrite(call: Call, device: array<Byte>, data: seq<Byte>, offset: nat) returns (n: nat)
    modifies device
    ensures n <= |data| && (n > 0 ==> offset + n <= device.Length)
    ensures forall i :: 0 <= i < device.Length && !(offset <= i < offset + n) ==> device[i] == old(device[i])
    ensures call.Moved? && call.n > 0 && call.stored == [] && |data| > 0 && offset + |data| <= device.Length ==>
      n > 0 && device[offset..offset + n] == data[..n]
  {
    n := if offset <= device.Length then Transferred(call, |data|, device.Length - offset) else 0;
    for k := 0 to n
      invariant forall i :: 0 <= i < device.Length && !(offset <= i < offset + k) ==> device[i] == old(device[i])
      invariant forall j :: 0 <= j < k ==> device[offset + j] == Stored(call, data, j)
    {
      device[offset + k] := Stored(call, data, k);
    }
    if call.Moved? && call.stored == [] && n > 0 {
      assert forall j :: 0 <= j < n ==>
        device[offset..offset + n][j] == device[offset + j] == Stored(call, data, j) == data[j];
    }
  }

  lemma {:induction false} TakeMore(data: seq<Byte>, w: nat, n: nat)
    requires w + n <= |data|
    ensures data[..w + n] == data[..w] + data[w..][..n]
  {
  }

  /** One write that continues after the first `written` bytes of `data`. */
  method WriteMore(call: Call, device: array<Byte>, data: seq<Byte>, offset: nat, written: nat) returns (n: nat)
    requires written < |data|
    modifies device
    ensures n <= |data| - written && (n > 0 ==> offset + written + n <= device.Length)
    ensures forall i :: 0 <= i < device.Length && !(offset + written <= i < offset + written + n) ==>
      device[i] == old(device[i])
    ensures call.Moved? && call.n > 0 && call.stored == [] && offset + |data| <= device.Length ==>
      n > 0 && (old(device[offset..offset + written]) == data[..written] ==>
                device[offset..offset + written + n] == data[..written + n])
  {
    ghost var before := device[..];
    n := Pwrite(call, device, data[written..], offset + written);
    if offset + |data| <= device.Length {
      assert device[offset..offset + written] == before[offset..offset + written];
      assert device[offset..offset + written + n] ==
        device[offset..offset + written] + device[offset + written..offset + written + n];
      TakeMore(data, written, n);
    }
  }

  /** Writes all of `data` at `offset`, retrying short and interrupted writes. */
  method WriteAll(kernel: Kernel, device: array<Byte>, data: seq<Byte>, offset: nat) returns (ok: bool)
    modifies kernel, device
    ensures Spent(old(kernel.schedule), kernel.schedule, |data|)
    ensures forall i :: 0 <= i < device.Length && !(offset <= i < offset + |data|) ==> device[i] == old(device[i])
    ensures (Honest(old(kernel.schedule)) && Completed(old(kernel.schedule)) >= |data| &&
             offset + |data| <= device.Length) ==>
      ok && device[offset..offset + |data|] == data
  {
    var written := 0;
    while written < |data|
      invariant 0 <= written <= |data| && Spent(old(kernel.schedule), kernel.schedule, written)
      invariant (Honest(old(kernel.schedule)) && Completed(old(kernel.schedule)) >= |data| &&
                 offset + |data| <= device.Length) ==>
        device[offset..offset + written] == data[..written]
      invariant forall i :: 0 <= i < device.Length && !(offset <= i < offset + |data|) ==> device[i] == old(device[i])
      decreases |kernel.schedule|, |data| - written
    {
      var call := kernel.Next();
      if call == Interrupted { continue; }
      var n := WriteMore(call, device, data, offset, written);
      if n == 0 { return false; }
      written := written + n;
    }
    ok := true;
  }

  lemma {:induction false} EqualInside(a: seq<Byte>, b: seq<Byte>, bytes: nat, offset: nat, count: nat)
    requires offset + count <= bytes <= |a| && bytes <= |b| && a[..bytes] == b[..bytes]
    ensures a[offset..offset + count] == b[offset..offset + count]
  {
    assert a[offset..offset + count] == a[..bytes][offset..offset + count];
    assert b[offset..offset + count] == b[..bytes][offset..offset + count];
  }

  method CompareWritten(kernel: Kernel, source: seq<Byte>, device: array<Byte>, bytes: nat) returns (ok: bool)
    modifies kernel
    ensures ok ==> 0 < bytes <= |source| && bytes <= device.Length && device[..bytes] == source[..bytes]
    ensures
      && Honest(old(kernel.schedule)) && Completed(old(kernel.schedule)) >= 2 * bytes && 0 < bytes <= INT64_MAX
      && bytes <= |source| && bytes <= device.Length && device[..bytes] == source[..bytes]
      ==> ok
  {
    if bytes == 0 || bytes > INT64_MAX { return false; }
    var offset := 0;
    while offset < bytes
      invariant 0 <= offset <= bytes && offset <= |source| && offset <= device.Length
      invariant Spent(old(kernel.schedule), kernel.schedule, 2 * offset)
      invariant device[..offset] == source[..offset]
    {
      var count := if CHUNK < bytes - offset then CHUNK else bytes - offset;
      var readSource, expected := ReadAt(kernel, source, count, offset);
      if !readSource { return false; }
      var readDevice, actual := ReadAt(kernel, device[..], count, offset);
      if !readDevice || expected != actual {
        if bytes <= |source| && bytes <= device.Length && device[..bytes] == source[..bytes] {
          EqualInside(device[..], source, bytes, offset, count);
        }
        return false;
      }
      assert device[..offset + count] == device[..offset] + device[..][offset..offset + count];
      assert source[..offset + count] == source[..offset] + source[offset..offset + count];
      offset := offset + count;
    }
    ok := true;
  }

  /** A true result means the device holds the image; in every run the bytes past the image are untouched. */
  method WriteAndVerify(kernel: Kernel, source: seq<Byte>, device: array<Byte>, bytes: nat) returns (ok: bool)
    modifies kernel, device
    ensures ok ==> 0 < bytes <= |source| && bytes <= device.Length && device[..bytes] == source[..bytes]
    ensures forall i :: bytes <= i < device.Length ==> device[i] == old(device[i])
    ensures
      && Honest(old(kernel.schedule)) && Completed(old(kernel.schedule)) >= 4 * bytes && kernel.fsyncSucceeds
      && 0 < bytes <= INT64_MAX
      && bytes <= |source| && bytes <= device.Length
      ==> ok
  {
    if bytes == 0 || bytes > INT64_MAX { return false; }
    ghost var good := Honest(kernel.schedule) && Completed(kernel.schedule) >= 4 * bytes && bytes <= |source| &&
      bytes <= device.Length;
    var offset := 0;
    while offset < bytes
      invariant 0 <= offset <= bytes && Spent(old(kernel.schedule), kernel.schedule, 2 * offset)
      invariant good ==> device[..offset] == source[..offset]
      invariant forall i :: bytes <= i < device.Length ==> device[i] == old(device[i])
    {
      var count := if CHUNK < bytes - offset then CHUNK else bytes - offset;
      ghost var before := device[..];
      var read, buffer := ReadAt(kernel, source, count, offset);
      if !read { return false; }
      var written := WriteAll(kernel, device, buffer, offset);
      if !written { return false; }
      if good {
        assert device[..offset] == before[..offset];
        assert device[..offset + count] == device[..offset] + device[offset..offset + count];
        assert source[..offset + count] == source[..offset] + source[offset..offset + count];
      }
      offset := offset + count;
    }
    if !kernel.fsyncSucceeds { return false; }
    ok := CompareWritten(kernel, source, device, bytes);
  }

  // ----- wiping -----

  function Zeros(n: nat): (z: seq<Byte>)
    ensures |z| == n && forall i :: 0 <= i < n ==> z[i] == 0
  {
    seq(n, i => 0)
  }

  /** Zeros the first `bytes` bytes; each retry starts where the last write ended. */
  method WriteZeros(kernel: Kernel, device: array<Byte>, bytes: nat) returns (ok: bool)
    modifies kernel, device
    ensures forall i :: bytes <= i < device.Length ==> device[i] == old(device[i])
    ensures Spent(old(kernel.schedule), kernel.schedule, bytes)
    ensures Honest(old(kernel.schedule)) && Completed(old(kernel.schedule)) >= bytes && bytes <= device.Length ==>
      ok && forall i :: 0 <= i < bytes ==> device[i] == 0
  {
    ghost var good := Honest(kernel.schedule) && Completed(kernel.schedule) >= bytes && bytes <= device.Length;
    var offset := 0;
    while offset < bytes
      invariant 0 <= offset <= bytes && Spent(old(kernel.schedule), kernel.schedule, offset)
      invariant good ==> forall i :: 0 <= i < offset ==> device[i] == 0
      invariant forall i :: bytes <= i < device.Length ==> device[i] == old(device[i])
      decreases |kernel.schedule|, bytes - offset
    {
      var count := if CHUNK < bytes - offset then CHUNK else bytes - offset;
      var call := kernel.Next();
      if call == Interrupted { continue; }
      var zeros := Zeros(count);
      ghost var before := device[..];
      var n := Pwrite(call, device, zeros, offset);
      if n == 0 { return false; }
      assert good ==> forall i :: offset <= i < offset + n ==>
        device[i] == device[offset..offset + n][i - offset] == zeros[i - offset];
      assert forall i :: 0 <= i < offset && i < device.Length ==> device[i] == before[i];
      offset := offset + n;
    }
    ok := true;
  }

  method ZeroAndVerify(kernel: Kernel, device: array<Byte>, bytes: nat) returns (ok: bool)
    modifies kernel, device
    ensures ok ==> 0 < bytes <= device.Length && forall i :: 0 <= i < bytes ==> device[i] == 0
    ensures forall i :: bytes <= i < device.Length ==> device[i] == old(device[i])
    ensures
      && Honest(old(kernel.schedule)) && Completed(old(kernel.schedule)) >= 2 * bytes && kernel.fsyncSucceeds
      && 0 < bytes <= INT64_MAX && bytes <= device.Length
      ==> ok
  {
    if bytes == 0 || bytes > INT64_MAX { return false; }
    ghost var good := Honest(kernel.schedule) && Completed(kernel.schedule) >= 2 * bytes && bytes <= device.Length;
    var wrote := WriteZeros(kernel, device, bytes);
    if !wrote { return false; }
    if !kernel.fsyncSucceeds { return false; }
    var offset := 0;
    while offset < bytes
      invariant 0 <= offset <= bytes && offset <= device.Length
      invariant Spent(old(kernel.schedule), kernel.schedule, bytes + offset)
      invariant good ==> forall i :: 0 <= i < bytes ==> device[i] == 0
      invariant forall i :: 0 <= i < offset ==> device[i] == 0
      invariant forall i :: bytes <= i < device.Length ==> device[i] == old(device[i])
      decreases |kernel.schedule|, bytes - offset
    {
      var count := if CHUNK < bytes - offset then CHUNK else bytes - offset;
      var call := kernel.Next();
      if call == Interrupted { continue; }
      var n := Transferred(call, count, device.Length - offset);
      if n == 0 || exists k :: offset <= k < offset + n && device[k] != 0 { return false; }
      offset := offset + n;
    }
    ok := true;
  }

  // ----- the image check -----

  lemma {:induction false} SliceFields(file: seq<Byte>, offset: nat, count: nat, k: nat)
    requires offset + count <= |file| && k + 4 <= count
    ensures Le16(file[offset..offset + count], k) == Le16(file, offset + k)
    ensures Le32(file[offset..offset + count], k) == Le32(file, offset + k)
  {
  }

  /** Signature and machine of the PE header at `offset`. */
  predicate PeHeaderOk(file: seq<Byte>, offset: nat)
    requires offset + 24 <= |file|
  {
    file[offset..offset + 4] == [0x50, 0x45, 0, 0] && Le16(file, offset + 4) == 0xaa64
  }

  method ReadPeHeader(kernel: Kernel, file: seq<Byte>, offset: nat)
    returns (ok: bool, readable: bool, optionalSize: nat, sections: nat)
    requires offset + 24 <= |file|
    modifies kernel
    ensures ok ==> readable
    ensures readable ==> (ok <==> PeHeaderOk(file, offset))
    ensures ok ==> optionalSize == Le16(file, offset + 20) && sections == Le16(file, offset + 6)
    ensures Spent(old(kernel.schedule), kernel.schedule, 24)
    ensures Honest(old(kernel.schedule)) && Completed(old(kernel.schedule)) >= 24 ==> readable
  {
    ok, optionalSize, sections := false, 0, 0;
    var pe;
    readable, pe := ReadAt(kernel, file, 24, offset);
    if !readable { return; }
    SliceFields(file, offset, 24, 4);
    SliceFields(file, offset, 24, 6);
    SliceFields(file, offset, 24, 20);
    assert pe[..4] == file[offset..offset + 4];
    ok := pe[..4] == [0x50, 0x45, 0, 0] && Le16(pe, 4) == 0xaa64;
    optionalSize, sections := Le16(pe, 20), Le16(pe, 6);
  }

  method ReadOptionalHeader(kernel: Kernel, file: seq<Byte>, at: nat) returns (ok: bool, readable: bool)
    requires at + 112 <= |file|
    modifies kernel
    ensures ok ==> readable
    ensures readable ==> (ok <==> Le16(file, at) == 0x20b && Le16(file, at + 68) == 10)
    ensures Spent(old(kernel.schedule), kernel.schedule, 112)
    ensures Honest(old(kernel.schedule)) && Completed(old(kernel.schedule)) >= 112 ==> readable
  {
    var optional;
    readable, optional := ReadAt(kernel, file, 112, at);
    if !readable { return false, false; }
    SliceFields(file, at, 112, 0);
    SliceFields(file, at, 112, 68);
    ok := Le16(optional, 0) == 0x20b && Le16(optional, 68) == 10;
  }

  /** The file-descriptor form of the image check: it reads piece by piece, and answers like the pure check. */
  method CheckImage(kernel: Kernel, file: seq<Byte>, capacity: nat) returns (ok: bool, readable: bool)
    modifies kernel
    ensures ok ==> readable
    ensures readable ==> (ok <==> ValidImage(file, capacity))
    ensures Honest(old(kernel.schedule)) && Completed(old(kernel.schedule)) >= 64 + 24 + 112 + 96 * 40 ==> readable
  {
    if |file| < 64 || |file| > capacity { return false, true; }
    var dos;
    readable, dos := ReadAt(kernel, file, 64, 0);
    if !readable || dos[0] != 0x4d || dos[1] != 0x5a { return false, readable; }
    SliceFields(file, 0, 64, 60);
    var offset := Le32(dos, 60);
    if offset < 64 || offset > |file| - 24 { return false, true; }
    var optionalSize, sections;
    ok, readable, optionalSize, sections := ReadPeHeader(kernel, file, offset);
    if !ok { return; }
    if optionalSize < 112 || sections == 0 || sections > 96 || optionalSize > |file| - offset - 24 {
      return false, true;
    }
    ok, readable := ReadOptionalHeader(kernel, file, offset + 24);
    if !ok { return; }
    var table := offset + 24 + optionalSize;
    if sections * 40 > |file| - table { return false, true; }
    ok, readable := CheckSections(kernel, file, table, sections);
  }

  /** One section header. */
  method CheckSection(kernel: Kernel, file: seq<Byte>, at: nat) returns (ok: bool, readable: bool)
    requires at + 40 <= |file|
    modifies kernel
    ensures ok ==> readable
    ensures readable ==>
      var length, start := Le32(file, at + 16), Le32(file, at + 20);
      (ok <==> length == 0 || (start <= |file| && length <= |file| - start))
    ensures Spent(old(kernel.schedule), kernel.schedule, 40)
    ensures Honest(old(kernel.schedule)) && Completed(old(kernel.schedule)) >= 40 ==> readable
  {
    var section;
    readable, section := ReadAt(kernel, file, 40, at);
    if !readable { return false, false; }
    SliceFields(file, at, 40, 16);
    SliceFields(file, at, 40, 20);
    var length, start := Le32(section, 16), Le32(section, 20);
    ok := !(length != 0 && (start > |file| || length > |file| - start));
  }

  method CheckSections(kernel: Kernel, file: seq<Byte>, table: nat, sections: nat) returns (ok: bool, readable: bool)
    requires table + sections * 40 <= |file|
    modifies kernel
    ensures ok ==> readable
    ensures readable ==> (ok <==> SectionsAccepted(file, table, sections))
    ensures Spent(old(kernel.schedule), kernel.schedule, 40 * sections)
    ensures Honest(old(kernel.schedule)) && Completed(old(kernel.schedule)) >= 40 * sections ==> readable
  {
    for i := 0 to sections
      invariant SectionsAccepted(file, table, i) && Spent(old(kernel.schedule), kernel.schedule, 40 * i)
    {
      ok, readable := CheckSection(kernel, file, table + i * 40);
      if !ok {
        assert readable ==> !SectionAccepted(file, table, i);
        return;
      }
    }
    return true, true;
  }
}
