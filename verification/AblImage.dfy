/**
  The ELF and PE headers of an ABL image: program-header extents (ELF Header and Program Header chapters of
  the System V gABI) and the extent of an ARM64 EFI application (Microsoft PE Format specification, "Optional
  Header Windows-Specific Fields" and "Section Table").
 */
module AblImage {
  import opened Wrappers
  import opened Bytes

  const MAX_INPUT: nat := 32 * 1024 * 1024

  datatype Range = Range(offset: nat, size: nat)

  /** The program-header table of an ELF image. */
  datatype Elf = Elf(table: Range, stride: nat, count: nat, wide: bool)

  /** A program-header table with these fields, if it lies within `capacity`. */
  function ElfTable(offset: nat, stride: nat, count: nat, wide: bool, capacity: nat): (elf: Option<Elf>)
    ensures elf.Some? ==>
      && 0 < elf.value.count <= 128 && (if elf.value.wide then 56 else 32) <= elf.value.stride <= 256
      && elf.value.table.size == elf.value.count * elf.value.stride
      && elf.value.table.offset + elf.value.table.size <= capacity
  {
    var minimum := if wide then 56 else 32;
    if stride < minimum || stride > 256 || count == 0 || count > 128 || offset > capacity ||
       count * stride > capacity - offset || offset + count * stride > MAX_INPUT
    then None
    else Some(Elf(Range(offset, count * stride), stride, count, wide))
  }

  /** Reads the ELF header out of the first 64 bytes; `capacity` bounds the table. */
  function ElfExtent(header: seq<Byte>, capacity: nat): (elf: Option<Elf>)
    ensures elf.Some? ==>
      && 0 < elf.value.count <= 128 && (if elf.value.wide then 56 else 32) <= elf.value.stride <= 256
      && elf.value.table.size == elf.value.count * elf.value.stride
      && elf.value.table.offset + elf.value.table.size <= capacity
  {
    if |header| < 64 || header[..4] != [0x7f, 0x45, 0x4c, 0x46] || header[5] != 1 || (header[4] != 1 && header[4] != 2)
    then None else
      var wide := header[4] == 2;
      var offset := if wide then Le64(header, 32) else Le32(header, 28);
      ElfTable(offset, Le16(header, if wide then 54 else 42), Le16(header, if wide then 56 else 44), wide, capacity)
  }

  /** The file range of the program header at `at`, if it lies within `capacity`. */
  function Program(d: seq<Byte>, at: nat, wide: bool, capacity: nat): Option<Range>
    requires at + (if wide then 56 else 32) <= |d|
  {
    var offset := if wide then Le64(d, at + 8) else Le32(d, at + 4);
    var bytes := if wide then Le64(d, at + 32) else Le32(d, at + 16);
    if offset > capacity || bytes > capacity - offset then None else Some(Range(offset, bytes))
  }

  // ----- PE -----

  /** The furthest raw section end seen from section `i` on, or None when one leaves the buffer. */
  function SectionsExtent(data: seq<Byte>, table: nat, count: nat, i: nat, extent: nat): Option<nat>
    requires i <= count && table + count * 40 <= |data|
    decreases count - i
  {
    if i == count then Some(extent) else
      var raw, size := Le32(data, table + i * 40 + 20), Le32(data, table + i * 40 + 16);
      if raw > |data| || size > |data| - raw then None
      else SectionsExtent(data, table, count, i + 1, if raw + size > extent then raw + size else extent)
  }

  /** The size of the EFI application at the start of `data`, or 0 when there is none. */
  function PeSize(data: seq<Byte>): nat {
    if |data| < 64 || data[0] != 0x4d || data[1] != 0x5a then 0 else
      var pe := Le32(data, 60);
      if pe < 64 || pe > |data| - 24 || data[pe..pe + 4] != [0x50, 0x45, 0, 0] || Le16(data, pe + 4) != 0xaa64 then
        0
      else
        var optional, count := Le16(data, pe + 20), Le16(data, pe + 6);
        if optional < 112 || optional > |data| - pe - 24 || count == 0 || count > 96 ||
           Le16(data, pe + 24) != 0x20b || Le16(data, pe + 92) != 10 then 0 else
          var table := pe + 24 + optional;
          if count * 40 > |data| - table then 0 else
            var extent := Le32(data, pe + 84);
            if extent < table + count * 40 || extent > |data| then 0 else
              var end := SectionsExtent(data, table, count, 0, extent);
              if end.None? then 0 else end.value
  }

  /** The loop of the size computation. */
  method ComputeSectionsExtent(data: seq<Byte>, table: nat, count: nat, start: nat) returns (end: Option<nat>)
    requires table + count * 40 <= |data|
    ensures end == SectionsExtent(data, table, count, 0, start)
  {
    var extent: nat := start;
    for i := 0 to count
      invariant SectionsExtent(data, table, count, 0, start) == SectionsExtent(data, table, count, i, extent)
    {
      var raw, size := Le32(data, table + i * 40 + 20), Le32(data, table + i * 40 + 16);
      if raw > |data| || size > |data| - raw {
        return None;
      }
      if raw + size > extent {
        extent := raw + size;
      }
    }
    end := Some(extent);
  }

  function SectionEnd(data: seq<Byte>, table: nat, i: nat): nat
    requires table + i * 40 + 24 <= |data|
  {
    Le32(data, table + i * 40 + 20) + Le32(data, table + i * 40 + 16)
  }

  ghost predicate SectionInside(data: seq<Byte>, table: nat, i: nat)
    requires table + i * 40 + 24 <= |data|
  {
    SectionEnd(data, table, i) <= |data|
  }

  lemma {:induction false} SectionsExtentMeaning(data: seq<Byte>, table: nat, count: nat, i: nat, extent: nat)
    requires i <= count && table + count * 40 <= |data| && extent <= |data|
    ensures
      var end := SectionsExtent(data, table, count, i, extent);
      && (end.Some? <==> forall k :: i <= k < count ==> SectionInside(data, table, k))
      && (end.Some? ==> extent <= end.value <= |data|)
      && (end.Some? ==> forall k :: i <= k < count ==> SectionEnd(data, table, k) <= end.value)
      && (end.Some? ==> end.value == extent || exists k :: i <= k < count && SectionEnd(data, table, k) == end.value)
    decreases count - i
  {
    if i < count {
      var raw, size := Le32(data, table + i * 40 + 20), Le32(data, table + i * 40 + 16);
      assert SectionEnd(data, table, i) == raw + size;
      assert SectionInside(data, table, i) <==> raw + size <= |data|;
      if raw + size <= |data| {
        SectionsExtentMeaning(data, table, count, i + 1, if raw + size > extent then raw + size else extent);
      }
    }
  }

  /** Where the section table of a recognised application lies. */
  function SectionTable(data: seq<Byte>): Range
    requires PeSize(data) != 0
  {
    var pe := Le32(data, 60);
    Range(pe + 24 + Le16(data, pe + 20), Le16(data, pe + 6) * 40)
  }

  /** The extent lies in the buffer and covers the section table and all raw section data. */
  lemma {:induction false} PeSizeCovers(data: seq<Byte>)
    requires PeSize(data) != 0
    ensures
      var table := SectionTable(data);
      && 64 < table.offset + table.size <= PeSize(data) <= |data|
      && forall k :: 0 <= k < table.size / 40 ==> SectionEnd(data, table.offset, k) <= PeSize(data)
  {
    var pe := Le32(data, 60);
    var table := SectionTable(data);
    SectionsExtentMeaning(data, table.offset, table.size / 40, 0, Le32(data, pe + 84));
  }

  // ----- the flashing validator -----

  /** What the EFISP flasher accepts, on the contents of a regular file. */
  predicate ValidImage(data: seq<Byte>, capacity: nat) {
    && |data| >= 64 && |data| <= capacity
    && data[0] == 0x4d && data[1] == 0x5a
    && var offset := Le32(data, 60);
    && offset >= 64 && offset <= |data| - 24
    && data[offset..offset + 4] == [0x50, 0x45, 0, 0] && Le16(data, offset + 4) == 0xaa64
    && var optionalSize, sections := Le16(data, offset + 20), Le16(data, offset + 6);
    && optionalSize >= 112 && sections != 0 && sections <= 96 && optionalSize <= |data| - offset - 24
    && Le16(data, offset + 24) == 0x20b && Le16(data, offset + 24 + 68) == 10
    && var table := offset + 24 + optionalSize;
    && sections * 40 <= |data| - table
    && SectionsAccepted(data, table, sections)
  }

  predicate SectionsAccepted(data: seq<Byte>, table: nat, count: nat)
    requires table + count * 40 <= |data|
  {
    forall i :: 0 <= i < count ==> SectionAccepted(data, table, i)
  }

  predicate SectionAccepted(data: seq<Byte>, table: nat, i: nat)
    requires table + i * 40 + 24 <= |data|
  {
    var length, start := Le32(data, table + i * 40 + 16), Le32(data, table + i * 40 + 20);
    length == 0 || (start <= |data| && length <= |data| - start)
  }

  /** What the inspector asks for beyond the flasher: a declared header size, and empty sections inside too. */
  predicate HeadersDeclared(data: seq<Byte>)
    requires ValidImage(data, |data|)
  {
    var pe := Le32(data, 60);
    var table, count := pe + 24 + Le16(data, pe + 20), Le16(data, pe + 6);
    && table + count * 40 <= Le32(data, pe + 84) <= |data|
    && forall i :: 0 <= i < count ==> Le32(data, table + i * 40 + 20) <= |data|
  }

  /** The header checks both validators make. */
  predicate PeShape(data: seq<Byte>) {
    && |data| >= 64 && data[0] == 0x4d && data[1] == 0x5a
    && var pe := Le32(data, 60);
    && 64 <= pe <= |data| - 24 && data[pe..pe + 4] == [0x50, 0x45, 0, 0] && Le16(data, pe + 4) == 0xaa64
    && var optional, count := Le16(data, pe + 20), Le16(data, pe + 6);
    && 112 <= optional <= |data| - pe - 24 && 0 < count <= 96
    && Le16(data, pe + 24) == 0x20b && Le16(data, pe + 92) == 10
    && pe + 24 + optional + count * 40 <= |data|
  }

  function TableOf(data: seq<Byte>): nat
    requires PeShape(data)
  {
    Le32(data, 60) + 24 + Le16(data, Le32(data, 60) + 20)
  }

  function CountOf(data: seq<Byte>): nat
    requires PeShape(data)
  {
    Le16(data, Le32(data, 60) + 6)
  }

  lemma {:induction false} PeSizeByShape(data: seq<Byte>)
    ensures PeSize(data) != 0 <==>
      && PeShape(data)
      && TableOf(data) + CountOf(data) * 40 <= Le32(data, Le32(data, 60) + 84) <= |data|
      && SectionsExtent(data, TableOf(data), CountOf(data), 0, Le32(data, Le32(data, 60) + 84)).Some?
  {
    if PeShape(data) {
      var extent := Le32(data, Le32(data, 60) + 84);
      if extent <= |data| {
        SectionsExtentMeaning(data, TableOf(data), CountOf(data), 0, extent);
      }
    }
  }

  lemma {:induction false} ValidImageByShape(data: seq<Byte>, capacity: nat)
    ensures ValidImage(data, capacity) <==>
      && |data| <= capacity && PeShape(data)
      && SectionsAccepted(data, TableOf(data), CountOf(data))
  {
    if PeShape(data) {
      var pe := Le32(data, 60);
      assert Le16(data, pe + 24 + 68) == Le16(data, pe + 92);
      assert pe + 24 + Le16(data, pe + 20) == TableOf(data);
    }
    if ValidImage(data, capacity) {
      var pe := Le32(data, 60);
      assert Le16(data, pe + 24 + 68) == Le16(data, pe + 92);
      assert PeShape(data);
    }
  }

  /** The two PE validators agree up to exactly those two checks. */
  lemma {:induction false} PeValidatorsAgree(data: seq<Byte>, capacity: nat)
    requires |data| <= capacity
    ensures PeSize(data) != 0 <==> ValidImage(data, capacity) && HeadersDeclared(data)
  {
    PeSizeByShape(data);
    ValidImageByShape(data, capacity);
    ValidImageByShape(data, |data|);
    if PeShape(data) {
      var table, count := TableOf(data), CountOf(data);
      var extent := Le32(data, Le32(data, 60) + 84);
      SectionsAgree(data, table, count);
      if extent <= |data| {
        SectionsExtentMeaning(data, table, count, 0, extent);
      }
    }
  }

  lemma {:induction false} SectionsAgree(data: seq<Byte>, table: nat, count: nat)
    requires table + count * 40 <= |data|
    ensures (forall i :: 0 <= i < count ==> SectionInside(data, table, i)) <==>
      && SectionsAccepted(data, table, count)
      && forall i :: 0 <= i < count ==> Le32(data, table + i * 40 + 20) <= |data|
  {
    forall i | 0 <= i < count
      ensures SectionInside(data, table, i) <==>
        SectionAccepted(data, table, i) && Le32(data, table + i * 40 + 20) <= |data|
    {
    }
    if forall i :: 0 <= i < count ==> SectionInside(data, table, i) {
      forall i | 0 <= i < count ensures SectionAccepted(data, table, i) && Le32(data, table + i * 40 + 20) <= |data| {
        assert SectionInside(data, table, i);
      }
    }
  }
}
